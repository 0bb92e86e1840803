/** Strings as JavaScript has them: sequences of UTF-16 code units. */
module Utf16 {
  newtype CodeUnit = x: int | 0 <= x < 0x1_0000

  type JsText = seq<CodeUnit>

  predicate IsPrefix(start: JsText, whole: JsText) {
    |start| <= |whole| && whole[..|start|] == start
  }

  function Concat(pieces: seq<JsText>): JsText {
    if pieces == [] then [] else pieces[0] + Concat(pieces[1..])
  }

  lemma {:induction false} ConcatAppend(pieces: seq<JsText>, last: JsText)
    ensures Concat(pieces + [last]) == Concat(pieces) + last
  {
    if pieces == [] {
      assert pieces + [last] == [last];
    } else {
      assert (pieces + [last])[1..] == pieces[1..] + [last];
      ConcatAppend(pieces[1..], last);
    }
  }
}

/** Secret values are kept out of stored output while it streams in. The masker
    holds back a tail that might be the start of a secret; what it emits, chunk by
    chunk, is the masking of the whole text. */
module SecretMasking {
  import opened Utf16
  import Text

  const SECRET_MASK: JsText := [42, 42, 42]

  // ---- The reference: one leftmost-longest masking of a whole text ---------

  predicate OccursAt(t: JsText, s: JsText, p: nat) {
    p + |t| <= |s| && s[p..p + |t|] == t
  }

  /** A stretch of the text replaced by the mask. */
  datatype Region = Region(start: nat, end: nat)

  /** No secret occurs at a position in `from..to`. */
  ghost predicate NoneIn(values: seq<JsText>, s: JsText, from: nat, to: nat) {
    forall p, v :: from <= p < to && v in values && v != [] ==> !OccursAt(v, s, p)
  }

  /** `r` is the first place from `from` on where a secret occurs, and the longest one there. */
  ghost predicate IsFirst(values: seq<JsText>, s: JsText, from: nat, r: Region) {
    && from <= r.start < r.end <= |s|
    && s[r.start..r.end] in values
    && NoneIn(values, s, from, r.start)
    && (forall v :: v in values && OccursAt(v, s, r.start) ==> |v| <= r.end - r.start)
  }

  /** Scanning from `from`, every region starts at the first position where a secret
      occurs and is as long as the longest secret occurring there. */
  ghost predicate LeftmostLongest(values: seq<JsText>, s: JsText, from: nat, regions: seq<Region>)
    decreases |regions|
  {
    if regions == [] then NoneIn(values, s, from, |s|)
    else IsFirst(values, s, from, regions[0]) && LeftmostLongest(values, s, regions[0].end, regions[1..])
  }

  /** Regions in order, not overlapping, inside `from..end`. */
  predicate Ordered(from: nat, regions: seq<Region>, end: nat)
    decreases |regions|
  {
    if regions == [] then from <= end
    else from <= regions[0].start < regions[0].end && Ordered(regions[0].end, regions[1..], end)
  }

  /** The text with every region replaced. */
  function Render(s: JsText, from: nat, regions: seq<Region>): JsText
    requires Ordered(from, regions, |s|)
    decreases |regions|
  {
    OrderedFits(from, regions, |s|);
    if regions == [] then s[from..]
    else s[from..regions[0].start] + SECRET_MASK + Render(s, regions[0].end, regions[1..])
  }

  lemma {:induction false} OrderedFits(from: nat, regions: seq<Region>, end: nat)
    requires Ordered(from, regions, end)
    ensures from <= end
    ensures regions != [] ==> regions[0].end <= end
    decreases |regions|
  {
    if regions != [] { OrderedFits(regions[0].end, regions[1..], end); }
  }

  lemma {:induction false} RegionsOrdered(values: seq<JsText>, s: JsText, from: nat, regions: seq<Region>)
    requires from <= |s| && LeftmostLongest(values, s, from, regions)
    ensures Ordered(from, regions, |s|)
    decreases |regions|
  {
    if regions != [] { RegionsOrdered(values, s, regions[0].end, regions[1..]); }
  }

  /** No occurrence of a secret escapes: each overlaps a replaced region. */
  lemma {:induction false} EveryOccurrenceOverlaps(values: seq<JsText>, s: JsText, from: nat, regions: seq<Region>, v: JsText, p: nat)
    requires LeftmostLongest(values, s, from, regions)
    requires v in values && v != [] && OccursAt(v, s, p) && from <= p
    ensures exists i :: 0 <= i < |regions| && regions[i].start < p + |v| && p < regions[i].end
    decreases |regions|
  {
    if regions != [] {
      if p < regions[0].end {
        assert regions[0].start <= p;
      } else {
        EveryOccurrenceOverlaps(values, s, regions[0].end, regions[1..], v, p);
        var i :| 0 <= i < |regions[1..]| && regions[1..][i].start < p + |v| && p < regions[1..][i].end;
        assert regions[i + 1] == regions[1..][i];
      }
    }
  }

  /** The scan has one outcome. */
  lemma {:induction false} LeftmostLongestUnique(values: seq<JsText>, s: JsText, from: nat, x: seq<Region>, y: seq<Region>)
    requires LeftmostLongest(values, s, from, x) && LeftmostLongest(values, s, from, y)
    ensures x == y
    decreases |x|
  {
    if x != [] && y != [] {
      FirstIsUnique(values, s, from, x[0], y[0]);
      LeftmostLongestUnique(values, s, x[0].end, x[1..], y[1..]);
      assert x == [x[0]] + x[1..] && y == [y[0]] + y[1..];
    } else if x != [] {
      FirstIsAnOccurrence(values, s, from, x[0]);
    } else if y != [] {
      FirstIsAnOccurrence(values, s, from, y[0]);
    }
  }

  lemma FirstIsAnOccurrence(values: seq<JsText>, s: JsText, from: nat, r: Region)
    requires IsFirst(values, s, from, r)
    ensures OccursAt(s[r.start..r.end], s, r.start)
    ensures forall to: nat :: NoneIn(values, s, from, to) ==> to <= r.start
  {
    var v := s[r.start..r.end];
    assert v != [] && v in values && OccursAt(v, s, r.start);
  }

  lemma FirstIsUnique(values: seq<JsText>, s: JsText, from: nat, x: Region, y: Region)
    requires IsFirst(values, s, from, x) && IsFirst(values, s, from, y)
    ensures x == y
  {
    FirstIsAnOccurrence(values, s, from, x);
    FirstIsAnOccurrence(values, s, from, y);
  }

  // ---- The masker's own steps, position by position -------------------------

  /** Length of the longest of `values` that `s` starts with; 0 when there is none. */
  function LongestAt(values: seq<JsText>, s: JsText): (n: nat)
    ensures n <= |s|
  {
    if values == [] then 0
    else
      var n := LongestAt(values[1..], s);
      if OccursAt(values[0], s, 0) && |values[0]| > n then |values[0]| else n
  }

  lemma {:induction false} LongestIsLongest(values: seq<JsText>, s: JsText)
    ensures LongestAt(values, s) > 0 ==> s[..LongestAt(values, s)] in values
    ensures forall v :: v in values && OccursAt(v, s, 0) ==> |v| <= LongestAt(values, s)
  {
    if values != [] {
      LongestIsLongest(values[1..], s);
      assert values == [values[0]] + values[1..];
      if OccursAt(values[0], s, 0) { assert s[0..|values[0]|] == s[..|values[0]|]; }
    }
  }

  /** What the scan emits at the start of `tail`, and how far it moves. */
  function StepAt(values: seq<JsText>, tail: JsText): (r: (JsText, nat))
    requires tail != []
    ensures 0 < r.1 <= |tail|
  {
    var n := LongestAt(values, tail);
    if n > 0 then (SECRET_MASK, n) else ([tail[0]], 1)
  }

  /** What one masking pass emits: matches that start before `limit` are replaced, and
      everything up to `limit`, or to the end of the last match, goes out. */
  function PassOut(values: seq<JsText>, s: JsText, limit: int): JsText
    requires limit <= |s|
    decreases |s|
  {
    if limit <= 0 then []
    else
      var (out, n) := StepAt(values, s);
      out + if n >= limit then [] else PassOut(values, s[n..], limit - n)
  }

  /** What the pass leaves for later. */
  function PassRest(values: seq<JsText>, s: JsText, limit: int): (rest: JsText)
    requires limit <= |s|
    ensures |rest| <= |s|
    decreases |s|
  {
    if limit <= 0 then s
    else
      var n := StepAt(values, s).1;
      if n >= limit then s[n..] else PassRest(values, s[n..], limit - n)
  }

  function MaskAll(values: seq<JsText>, s: JsText): JsText {
    PassOut(values, s, |s|)
  }

  /** The longest secret, and the tail the masker must hold back for it. */
  function MaxLength(values: seq<JsText>): (n: nat)
    ensures forall v :: v in values ==> |v| <= n
    ensures n > 0 ==> exists v :: v in values && |v| == n
  {
    if values == [] then 0
    else
      var n := MaxLength(values[1..]);
      if |values[0]| > n then
        assert values[0] in values;
        |values[0]|
      else
        assert n > 0 ==> exists v :: v in values[1..] && |v| == n;
        n
  }

  function Limit(values: seq<JsText>, s: JsText): (n: nat)
    ensures n <= |s|
  {
    var hold := MaxLength(values) - 1;
    if hold < 0 then |s| else if |s| > hold then |s| - hold else 0
  }

  /** The masker as a state machine whose only state is the held-back tail: what a
      chunk lets out, and the new tail. */
  function PushOut(values: seq<JsText>, pending: JsText, chunk: JsText): JsText {
    var s := pending + chunk;
    PassOut(values, s, Limit(values, s))
  }

  function PushRest(values: seq<JsText>, pending: JsText, chunk: JsText): JsText {
    var s := pending + chunk;
    PassRest(values, s, Limit(values, s))
  }

  /** Everything emitted for `chunks` and the final flush. */
  function Stream(values: seq<JsText>, pending: JsText, chunks: seq<JsText>): JsText
    decreases |chunks|
  {
    if chunks == [] then MaskAll(values, pending)
    else PushOut(values, pending, chunks[0]) + Stream(values, PushRest(values, pending, chunks[0]), chunks[1..])
  }

  /** A position far enough from the end is decided: more text cannot change what matches there. */
  lemma {:induction false} LongestSettled(values: seq<JsText>, s: JsText, more: JsText)
    requires MaxLength(values) <= |s|
    ensures LongestAt(values, s + more) == LongestAt(values, s)
  {
    if values != [] {
      LongestSettled(values[1..], s, more);
      assert values[0] in values;
      assert (s + more)[..|values[0]|] == s[..|values[0]|];
    }
  }

  /** The scan's step at the start of a text that goes on long enough does not change either. */
  lemma StepSettled(values: seq<JsText>, s: JsText, more: JsText)
    requires s != [] && MaxLength(values) <= |s|
    ensures StepAt(values, s + more) == StepAt(values, s)
  {
    LongestSettled(values, s, more);
    assert (s + more)[0] == s[0];
  }

  lemma MaskStep(values: seq<JsText>, s: JsText, out: JsText, n: nat, rest: JsText)
    requires s != [] && StepAt(values, s) == (out, n) && n <= |s| && rest == s[n..]
    ensures MaskAll(values, s) == out + MaskAll(values, rest)
  {}

  lemma PassStepOut(values: seq<JsText>, s: JsText, limit: nat, out: JsText, n: nat, rest: JsText)
    requires 0 < limit <= |s| && StepAt(values, s) == (out, n) && n <= |s| && rest == s[n..]
    ensures PassOut(values, s, limit) == out + PassOut(values, rest, limit - n)
    ensures PassRest(values, s, limit) == PassRest(values, rest, limit - n)
  {}

  lemma DropOfAppend(s: JsText, more: JsText, n: nat)
    requires n <= |s|
    ensures (s + more)[n..] == s[n..] + more
  {}

  /** What a pass emits is the beginning of the masking of any continuation, and the
      rest is the masking of what the pass left followed by that continuation. */
  lemma {:induction false} PassIsPrefix(values: seq<JsText>, s: JsText, limit: nat, more: JsText)
    requires limit <= |s| && (limit == 0 || limit - 1 + MaxLength(values) <= |s|)
    ensures MaskAll(values, s + more) == PassOut(values, s, limit) + MaskAll(values, PassRest(values, s, limit) + more)
    decreases |s|
  {
    if limit > 0 {
      var (out, n) := StepAt(values, s);
      var rest := s[n..];
      StepSettled(values, s, more);
      DropOfAppend(s, more, n);
      MaskStep(values, s + more, out, n, rest + more);
      PassStepOut(values, s, limit, out, n, rest);
      if n < limit {
        PassIsPrefix(values, rest, limit - n, more);
        Text.Regroup(out, PassOut(values, rest, limit - n), MaskAll(values, PassRest(values, rest, limit - n) + more));
      } else {
        assert out + PassOut(values, rest, limit - n) == out;
      }
    }
  }

  lemma OneChunk(values: seq<JsText>, pending: JsText, chunk: JsText, more: JsText)
    ensures MaskAll(values, pending + chunk + more) ==
      PushOut(values, pending, chunk) + MaskAll(values, PushRest(values, pending, chunk) + more)
  {
    PassIsPrefix(values, pending + chunk, Limit(values, pending + chunk), more);
  }

  /** However the text is cut into chunks, the masker emits the masking of the whole. */
  lemma {:induction false} ChunkingIsInvisible(values: seq<JsText>, pending: JsText, chunks: seq<JsText>)
    ensures Stream(values, pending, chunks) == MaskAll(values, pending + Concat(chunks))
    decreases |chunks|
  {
    if chunks == [] {
      assert pending + Concat(chunks) == pending;
    } else {
      var more := Concat(chunks[1..]);
      OneChunk(values, pending, chunks[0], more);
      ChunkingIsInvisible(values, PushRest(values, pending, chunks[0]), chunks[1..]);
      Text.Regroup(pending, chunks[0], more);
    }
  }

  /** The regions a pass over the whole text replaces. */
  ghost function RegionsFrom(values: seq<JsText>, s: JsText, pos: nat): seq<Region>
    requires pos <= |s|
    decreases |s| - pos
  {
    if pos == |s| then []
    else
      var n := LongestAt(values, s[pos..]);
      if n > 0 then [Region(pos, pos + n)] + RegionsFrom(values, s, pos + n) else RegionsFrom(values, s, pos + 1)
  }

  lemma OccursIsPrefix(values: seq<JsText>, s: JsText, p: nat)
    requires p <= |s|
    ensures forall v :: v in values ==> (OccursAt(v, s, p) <==> OccursAt(v, s[p..], 0))
  {
    forall v | v in values && p + |v| <= |s|
      ensures OccursAt(v, s, p) <==> OccursAt(v, s[p..], 0)
    {
      assert s[p..][0..|v|] == s[p..p + |v|];
    }
  }

  /** Where the scan stands, the longest secret occurring there, if any. */
  lemma ScanAt(values: seq<JsText>, s: JsText, p: nat)
    requires p < |s|
    ensures var n := LongestAt(values, s[p..]);
      && (n > 0 ==> s[p..p + n] in values)
      && (forall v :: v in values && OccursAt(v, s, p) ==> |v| <= n)
  {
    OccursIsPrefix(values, s, p);
    LongestIsLongest(values, s[p..]);
    var n := LongestAt(values, s[p..]);
    assert s[p..][..n] == s[p..p + n];
  }

  /** A region list that starts at `from` can also be scanned from any earlier position
      before which no secret occurs. */
  lemma ScanFromEarlier(values: seq<JsText>, s: JsText, from: nat, regions: seq<Region>)
    requires from < |s| && LeftmostLongest(values, s, from + 1, regions)
    requires forall v :: v in values && v != [] ==> !OccursAt(v, s, from)
    ensures LeftmostLongest(values, s, from, regions)
  {}

  lemma NothingAt(values: seq<JsText>, s: JsText, p: nat, to: nat)
    requires p < to <= |s| && NoneIn(values, s, p, to)
    ensures LongestAt(values, s[p..]) == 0
  {
    NoneUpTo(values, s, p, to, p + 1);
    SomethingAt(values, s, p);
  }

  lemma SomethingAt(values: seq<JsText>, s: JsText, p: nat)
    requires p < |s|
    ensures LongestAt(values, s[p..]) > 0 ==> !NoneIn(values, s, p, p + 1)
  {
    ScanAt(values, s, p);
    var n := LongestAt(values, s[p..]);
    if n > 0 { assert OccursAt(s[p..p + n], s, p) && s[p..p + n] != []; }
  }

  lemma NothingFound(values: seq<JsText>, s: JsText, p: nat)
    requires p < |s| && LongestAt(values, s[p..]) == 0
    ensures forall v :: v in values && v != [] ==> !OccursAt(v, s, p)
  {
    ScanAt(values, s, p);
  }

  lemma RegionFound(values: seq<JsText>, s: JsText, p: nat, n: nat, rest: seq<Region>)
    requires p < |s| && n == LongestAt(values, s[p..]) && n > 0
    requires LeftmostLongest(values, s, p + n, rest)
    ensures LeftmostLongest(values, s, p, [Region(p, p + n)] + rest)
  {
    ScanAt(values, s, p);
    var r := Region(p, p + n);
    assert IsFirst(values, s, p, r);
    assert ([r] + rest)[1..] == rest;
  }

  /** The masking of a text is its leftmost-longest replacement. */
  lemma {:induction false} MaskingIsLeftmostLongest(values: seq<JsText>, s: JsText, pos: nat)
    requires pos <= |s|
    ensures LeftmostLongest(values, s, pos, RegionsFrom(values, s, pos))
    decreases |s| - pos, 1
  {
    if pos < |s| {
      if LongestAt(values, s[pos..]) > 0 { RegionsHit(values, s, pos); } else { RegionsMiss(values, s, pos); }
    }
  }

  /** Where a secret occurs, the scan's regions begin with it; where none does, they are those from
      the next position on. */
  lemma {:induction false} RegionsHit(values: seq<JsText>, s: JsText, pos: nat)
    requires pos < |s| && LongestAt(values, s[pos..]) > 0
    ensures LeftmostLongest(values, s, pos, RegionsFrom(values, s, pos))
    decreases |s| - pos, 0
  {
    var n := LongestAt(values, s[pos..]);
    var rest := RegionsFrom(values, s, pos + n);
    MaskingIsLeftmostLongest(values, s, pos + n);
    RegionFound(values, s, pos, n, rest);
    RegionsUnfold(values, s, pos, n, rest);
  }

  lemma RegionsUnfold(values: seq<JsText>, s: JsText, pos: nat, n: nat, rest: seq<Region>)
    requires pos < |s| && n == LongestAt(values, s[pos..]) && n > 0 && rest == RegionsFrom(values, s, pos + n)
    ensures RegionsFrom(values, s, pos) == [Region(pos, pos + n)] + rest
  {}

  lemma {:induction false} RegionsMiss(values: seq<JsText>, s: JsText, pos: nat)
    requires pos < |s| && LongestAt(values, s[pos..]) == 0
    ensures LeftmostLongest(values, s, pos, RegionsFrom(values, s, pos))
    decreases |s| - pos, 0
  {
    MaskingIsLeftmostLongest(values, s, pos + 1);
    NothingFound(values, s, pos);
    ScanFromEarlier(values, s, pos, RegionsFrom(values, s, pos + 1));
  }

  /** Text before a region list is copied unchanged. */
  lemma RenderFromEarlier(s: JsText, from: nat, regions: seq<Region>)
    requires from < |s| && Ordered(from + 1, regions, |s|)
    ensures Ordered(from, regions, |s|)
    ensures Render(s, from, regions) == [s[from]] + Render(s, from + 1, regions)
  {
    OrderedFits(from + 1, regions, |s|);
    if regions == [] {
      assert s[from..] == [s[from]] + s[from + 1..];
    } else {
      var stop := regions[0].start;
      assert s[from..stop] == [s[from]] + s[from + 1..stop];
      Text.Regroup([s[from]], s[from + 1..stop], SECRET_MASK);
      Text.Regroup([s[from]], s[from + 1..stop] + SECRET_MASK, Render(s, regions[0].end, regions[1..]));
    }
  }

  /** The masking from `pos` on, by what stands there. */
  lemma MaskAllUnfold(values: seq<JsText>, s: JsText, pos: nat, n: nat)
    requires pos < |s| && n == LongestAt(values, s[pos..])
    ensures n > 0 ==> MaskAll(values, s[pos..]) == SECRET_MASK + MaskAll(values, s[pos + n..])
    ensures n == 0 ==> MaskAll(values, s[pos..]) == [s[pos]] + MaskAll(values, s[pos + 1..])
  {
    var tail := s[pos..];
    if n > 0 {
      assert tail[n..] == s[pos + n..];
      MaskStep(values, tail, SECRET_MASK, n, s[pos + n..]);
    } else {
      assert tail[1..] == s[pos + 1..];
      MaskStep(values, tail, [s[pos]], 1, s[pos + 1..]);
    }
  }

  lemma RenderRegion(s: JsText, pos: nat, n: nat, rest: seq<Region>)
    requires n > 0 && pos + n <= |s| && Ordered(pos + n, rest, |s|)
    ensures Ordered(pos, [Region(pos, pos + n)] + rest, |s|)
    ensures Render(s, pos, [Region(pos, pos + n)] + rest) == SECRET_MASK + Render(s, pos + n, rest)
  {
    var rs := [Region(pos, pos + n)] + rest;
    assert rs[0] == Region(pos, pos + n) && rs[1..] == rest;
    assert s[pos..pos] == [];
  }

  lemma {:induction false} MaskingRenders(values: seq<JsText>, s: JsText, pos: nat)
    requires pos <= |s|
    ensures Ordered(pos, RegionsFrom(values, s, pos), |s|)
    ensures MaskAll(values, s[pos..]) == Render(s, pos, RegionsFrom(values, s, pos))
    decreases |s| - pos
  {
    if pos < |s| {
      var n := LongestAt(values, s[pos..]);
      MaskAllUnfold(values, s, pos, n);
      if n > 0 {
        MaskingRenders(values, s, pos + n);
        RenderRegion(s, pos, n, RegionsFrom(values, s, pos + n));
      } else {
        MaskingRenders(values, s, pos + 1);
        RenderFromEarlier(s, pos, RegionsFrom(values, s, pos + 1));
      }
    }
  }

  /** The main result: for every secret list and every chunking, the stored text is the
      leftmost-longest masking of the whole, and every secret in the input overlaps a replaced region. */
  lemma StreamedMasking(values: seq<JsText>, chunks: seq<JsText>, regions: seq<Region>)
    requires LeftmostLongest(values, Concat(chunks), 0, regions)
    ensures Ordered(0, regions, |Concat(chunks)|)
    ensures Stream(values, [], chunks) == Render(Concat(chunks), 0, regions)
    ensures forall v, p: nat :: v in values && v != [] && OccursAt(v, Concat(chunks), p) ==>
      exists i :: 0 <= i < |regions| && regions[i].start < p + |v| && p < regions[i].end
  {
    var s := Concat(chunks);
    ChunkingIsInvisible(values, [], chunks);
    assert [] + s == s && s[0..] == s;
    RegionsOrdered(values, s, 0, regions);
    MaskingIsLeftmostLongest(values, s, 0);
    LeftmostLongestUnique(values, s, 0, regions, RegionsFrom(values, s, 0));
    MaskingRenders(values, s, 0);
    forall v, p: nat | v in values && v != [] && OccursAt(v, s, p)
      ensures exists i :: 0 <= i < |regions| && regions[i].start < p + |v| && p < regions[i].end
    {
      EveryOccurrenceOverlaps(values, s, 0, regions, v, p);
    }
  }

  // ---- The masker as the program keeps it -----------------------------------

  /** First position from `from` on where `t` occurs, or -1. */
  function IndexOf(s: JsText, t: JsText, from: nat): (idx: int)
    requires t != []
    ensures idx < 0 ==> forall p: nat :: from <= p ==> !OccursAt(t, s, p)
    ensures idx >= 0 ==> from <= idx && OccursAt(t, s, idx) && forall p: nat :: from <= p < idx ==> !OccursAt(t, s, p)
    decreases |s| - from
  {
    if OccursAt(t, s, from) then from else if from + |t| > |s| then -1 else IndexOf(s, t, from + 1)
  }

  lemma LongestIsThere(values: seq<JsText>, secrets: seq<JsText>)
    requires forall v :: v != [] && v in values ==> v in secrets
    ensures MaxLength(values) <= MaxLength(secrets)
  {}

  /** Two lists with the same non-empty members hold back as much. */
  lemma SameSecretsSameLength(values: seq<JsText>, secrets: seq<JsText>)
    requires forall v :: v != [] ==> (v in values <==> v in secrets)
    ensures MaxLength(values) == MaxLength(secrets)
  {
    LongestIsThere(values, secrets);
    LongestIsThere(secrets, values);
  }

  /** What is still to be emitted by a pass over `s` that has reached `pos`. */
  function OutFrom(values: seq<JsText>, s: JsText, pos: nat, limit: nat): JsText
    requires pos <= |s| && limit <= |s|
    decreases |s| - pos
  {
    if pos >= limit then []
    else
      var n := LongestAt(values, s[pos..]);
      if n > 0 then SECRET_MASK + OutFrom(values, s, pos + n, limit) else [s[pos]] + OutFrom(values, s, pos + 1, limit)
  }

  /** Where such a pass stops. */
  function StopFrom(values: seq<JsText>, s: JsText, pos: nat, limit: nat): (stop: nat)
    requires pos <= |s| && limit <= |s|
    ensures pos <= stop <= |s|
    decreases |s| - pos
  {
    if pos >= limit then pos
    else
      var n := LongestAt(values, s[pos..]);
      StopFrom(values, s, pos + if n > 0 then n else 1, limit)
  }

  lemma OutStep(values: seq<JsText>, s: JsText, pos: nat, limit: nat, tail: JsText, out: JsText, n: nat)
    requires pos < limit <= |s| && tail == s[pos..] && StepAt(values, tail) == (out, n)
    ensures OutFrom(values, s, pos, limit) == out + OutFrom(values, s, pos + n, limit)
  {}

  lemma StopStep(values: seq<JsText>, s: JsText, pos: nat, limit: nat, tail: JsText, out: JsText, n: nat)
    requires pos < limit <= |s| && tail == s[pos..] && StepAt(values, tail) == (out, n)
    ensures StopFrom(values, s, pos, limit) == StopFrom(values, s, pos + n, limit)
  {}

  lemma TailStep(values: seq<JsText>, s: JsText, pos: nat, tail: JsText) returns (out: JsText, n: nat, rest: JsText)
    requires pos < |s| && tail == s[pos..]
    ensures StepAt(values, tail) == (out, n) && 0 < n <= |tail| && rest == tail[n..] == s[pos + n..]
  {
    out, n := StepAt(values, tail).0, StepAt(values, tail).1;
    rest := tail[n..];
  }

  /** A pass over a text emits what it does position by position. */
  lemma {:induction false} OutFromIsPass(values: seq<JsText>, s: JsText, pos: nat, limit: nat, tail: JsText, left: int)
    requires pos <= |s| && limit <= |s| && tail == s[pos..] && left == limit - pos
    ensures OutFrom(values, s, pos, limit) == PassOut(values, tail, left)
    decreases |s| - pos
  {
    if pos < limit {
      var out, n, rest := TailStep(values, s, pos, tail);
      OutFromIsPass(values, s, pos + n, limit, rest, left - n);
      PassStepOut(values, tail, left, out, n, rest);
      OutStep(values, s, pos, limit, tail, out, n);
    }
  }

  /** It leaves what follows the position where it stops. */
  lemma {:induction false} StopIsRest(values: seq<JsText>, s: JsText, pos: nat, limit: nat, tail: JsText, left: int)
    requires pos <= |s| && limit <= |s| && tail == s[pos..] && left == limit - pos
    ensures s[StopFrom(values, s, pos, limit)..] == PassRest(values, tail, left)
    decreases |s| - pos
  {
    if pos < limit {
      var out, n, rest := TailStep(values, s, pos, tail);
      StopIsRest(values, s, pos + n, limit, rest, left - n);
      PassStepOut(values, tail, left, out, n, rest);
      StopStep(values, s, pos, limit, tail, out, n);
    }
  }

  /** Where no secret occurs, a pass copies. */
  lemma {:induction false} PassCopies(values: seq<JsText>, s: JsText, pos: nat, idx: nat, limit: nat)
    requires pos <= idx <= limit <= |s| && NoneIn(values, s, pos, idx)
    ensures OutFrom(values, s, pos, limit) == s[pos..idx] + OutFrom(values, s, idx, limit)
    ensures StopFrom(values, s, pos, limit) == StopFrom(values, s, idx, limit)
    decreases idx - pos
  {
    if pos < idx {
      NothingAt(values, s, pos, idx);
      PassCopies(values, s, pos + 1, idx, limit);
      assert s[pos..idx] == [s[pos]] + s[pos + 1..idx];
      Text.Regroup([s[pos]], s[pos + 1..idx], OutFrom(values, s, idx, limit));
    } else {
      assert s[pos..idx] == [];
    }
  }

  /** Where the first match is, a pass emits the mask and skips the match. */
  lemma PassReplaces(values: seq<JsText>, s: JsText, r: Region, limit: nat)
    requires IsFirst(values, s, r.start, r) && r.start < limit <= |s|
    ensures OutFrom(values, s, r.start, limit) == SECRET_MASK + OutFrom(values, s, r.end, limit)
    ensures StopFrom(values, s, r.start, limit) == StopFrom(values, s, r.end, limit)
  {
    LongestIsTheMatch(values, s, r);
  }

  lemma WholePass(values: seq<JsText>, s: JsText, limit: nat)
    requires limit <= |s|
    ensures OutFrom(values, s, 0, limit) == PassOut(values, s, limit) && s[StopFrom(values, s, 0, limit)..] == PassRest(values, s, limit)
  {
    assert s[0..] == s;
    OutFromIsPass(values, s, 0, limit, s, limit);
    StopIsRest(values, s, 0, limit, s, limit);
  }

  lemma LongestIsTheMatch(values: seq<JsText>, s: JsText, r: Region)
    requires IsFirst(values, s, r.start, r)
    ensures LongestAt(values, s[r.start..]) == r.end - r.start
  {
    ScanAt(values, s, r.start);
    FirstIsAnOccurrence(values, s, r.start, r);
    var n := LongestAt(values, s[r.start..]);
    assert OccursAt(s[r.start..r.start + n], s, r.start);
  }

  class SecretMasker {
    ghost const values: seq<JsText>
    var secrets: seq<JsText>
    var pending: JsText

    /** `secrets` are the non-empty values, longest first. */
    ghost predicate Valid()
      reads this
    {
      && (forall v :: v in secrets ==> v != [])
      && (forall v :: v != [] ==> (v in values <==> v in secrets))
      && (forall i, j :: 0 <= i < j < |secrets| ==> |secrets[i]| >= |secrets[j]|)
      && (secrets == [] ==> pending == [])
    }

    constructor (secretValues: seq<JsText>)
      ensures Valid() && values == secretValues && pending == []
    {
      values := secretValues;
      pending := [];
      secrets := [];
      new;
      for i := 0 to |secretValues|
        invariant pending == []
        invariant forall v :: v in secrets ==> v != []
        invariant forall v :: v != [] ==> (v in secretValues[..i] <==> v in secrets)
        invariant forall i, j :: 0 <= i < j < |secrets| ==> |secrets[i]| >= |secrets[j]|
      {
        var v := secretValues[i];
        assert secretValues[..i + 1] == secretValues[..i] + [v];
        if v != [] && v !in secrets {
          InsertByLength(v);
        }
      }
      assert secretValues[..|secretValues|] == secretValues;
    }

    /** Put a value behind those at least as long. */
    method InsertByLength(v: JsText)
      requires v != []
      requires forall i, j :: 0 <= i < j < |secrets| ==> |secrets[i]| >= |secrets[j]|
      modifies this`secrets
      ensures forall w :: w in secrets <==> w == v || w in old(secrets)
      ensures forall i, j :: 0 <= i < j < |secrets| ==> |secrets[i]| >= |secrets[j]|
    {
      var k := 0;
      while k < |secrets| && |secrets[k]| >= |v|
        invariant k <= |secrets| && forall i :: 0 <= i < k ==> |secrets[i]| >= |v|
      {
        k := k + 1;
      }
      ghost var before := secrets;
      assert before == before[..k] + before[k..];
      secrets := secrets[..k] + [v] + secrets[k..];
    }

    /** The first match from `from` on: of all secrets the one that occurs earliest, and of
        those the longest. */
    method NextMatch(s: JsText, from: nat) returns (idx: int, len: nat)
      requires Valid() && from <= |s|
      ensures idx < 0 ==> NoneIn(values, s, from, |s|)
      ensures idx >= 0 ==> IsFirst(values, s, from, Region(idx, idx + len))
    {
      idx, len := -1, 0;
      for i := 0 to |secrets|
        invariant idx < 0 ==> forall j, p: nat :: 0 <= j < i && from <= p ==> !OccursAt(secrets[j], s, p)
        invariant idx >= 0 ==> from <= idx && len > 0 && idx + len <= |s| && s[idx..idx + len] in secrets[..i]
        invariant idx >= 0 ==> forall j, p: nat :: 0 <= j < i && from <= p && OccursAt(secrets[j], s, p) ==>
          idx < p || (idx == p && |secrets[j]| <= len)
        invariant idx >= 0 ==> forall j :: i <= j < |secrets| ==> |secrets[j]| <= len
      {
        var secret := secrets[i];
        assert secret in secrets;
        assert secrets[..i + 1] == secrets[..i] + [secret];
        var at := IndexOf(s, secret, from);
        if at >= 0 && (idx < 0 || at < idx) {
          idx, len := at, |secret|;
        }
      }
      if idx >= 0 {
        forall v | v in values && OccursAt(v, s, idx)
          ensures |v| <= len
        {
          if v != [] { assert v in secrets; }
        }
        assert s[idx..idx + len] in secrets;
      }
    }

    /** Replace every match that starts before `limit`: what goes out up to the end of the last
        one, and where that is. */
    method ReplaceMatches(s: JsText, limit: nat) returns (out: JsText, pos: nat)
      requires Valid() && limit <= |s|
      ensures pos <= |s| && (pos < limit ==> NoneIn(values, s, pos, limit))
      ensures OutFrom(values, s, 0, limit) == out + OutFrom(values, s, pos, limit)
      ensures StopFrom(values, s, 0, limit) == StopFrom(values, s, pos, limit)
    {
      out, pos := [], 0;
      ghost var whole := OutFrom(values, s, 0, limit);
      ghost var left := whole;
      Nothing(whole);
      while true
        invariant pos <= |s| && left == OutFrom(values, s, pos, limit)
        invariant whole == out + left
        invariant StopFrom(values, s, 0, limit) == StopFrom(values, s, pos, limit)
        decreases |s| - pos
      {
        var idx, len := NextMatch(s, pos);
        if idx < 0 || idx >= limit {
          NoneUpTo(values, s, pos, if idx < 0 then |s| else idx, limit);
          return;
        }
        var r := Region(idx, idx + len);
        var piece := s[pos..r.start] + SECRET_MASK;
        MatchStep(values, s, pos, r, limit);
        left := OutFrom(values, s, r.end, limit);
        Text.Regroup(out, piece, left);
        out := out + piece;
        pos := r.end;
      }
    }

    /** One masking pass over `s`. */
    method Mask(s: JsText, limit: nat) returns (out: JsText, consumed: nat)
      requires Valid() && limit <= |s|
      ensures out == PassOut(values, s, limit)
      ensures consumed <= |s| && s[consumed..] == PassRest(values, s, limit)
    {
      var pos;
      out, pos := ReplaceMatches(s, limit);
      var emitTo := if pos > limit then pos else limit;
      LastStep(values, s, pos, limit);
      WholePass(values, s, limit);
      out := out + s[pos..emitTo];
      consumed := emitTo;
    }

    /** Feed one chunk; what comes back is safe to persist. */
    method Push(chunk: JsText) returns (out: JsText)
      requires Valid()
      modifies this`pending
      ensures Valid()
      ensures out == PushOut(values, old(pending), chunk)
      ensures pending == PushRest(values, old(pending), chunk)
    {
      SameSecretsSameLength(values, secrets);
      var s := pending + chunk;
      if secrets == [] {
        NothingToMask(values, s);
        assert s == chunk;
        return chunk;
      }
      LongestFirst(secrets);
      assert secrets[0] in secrets;
      var hold := |secrets[0]| - 1;
      var limit := if |s| > hold then |s| - hold else 0;
      assert limit == Limit(values, s);
      var consumed;
      out, consumed := Mask(s, limit);
      pending := s[consumed..];
    }

    /** End of stream: whatever was held back, masked. */
    method Flush() returns (out: JsText)
      requires Valid()
      modifies this`pending
      ensures Valid()
      ensures out == MaskAll(values, old(pending)) && pending == []
    {
      var consumed;
      out, consumed := Mask(pending, |pending|);
      pending := [];
    }
  }

  lemma Nothing(s: JsText)
    ensures [] + s == s
  {}

  lemma NoneUpTo(values: seq<JsText>, s: JsText, pos: nat, found: nat, limit: nat)
    requires NoneIn(values, s, pos, found) && limit <= found
    ensures NoneIn(values, s, pos, limit)
  {}

  lemma MatchStep(values: seq<JsText>, s: JsText, pos: nat, r: Region, limit: nat)
    requires IsFirst(values, s, pos, r) && r.start < limit <= |s|
    ensures OutFrom(values, s, pos, limit) == (s[pos..r.start] + SECRET_MASK) + OutFrom(values, s, r.end, limit)
    ensures StopFrom(values, s, pos, limit) == StopFrom(values, s, r.end, limit)
  {
    PassCopies(values, s, pos, r.start, limit);
    FirstFromItself(values, s, pos, r);
    PassReplaces(values, s, r, limit);
    Text.Regroup(s[pos..r.start], SECRET_MASK, OutFrom(values, s, r.end, limit));
  }

  lemma LastStep(values: seq<JsText>, s: JsText, pos: nat, limit: nat)
    requires pos <= |s| && limit <= |s| && (pos < limit ==> NoneIn(values, s, pos, limit))
    ensures var emitTo := if pos > limit then pos else limit;
      OutFrom(values, s, pos, limit) == s[pos..emitTo] && StopFrom(values, s, pos, limit) == emitTo
  {
    if pos < limit {
      PassCopies(values, s, pos, limit, limit);
    }
  }

  lemma FirstFromItself(values: seq<JsText>, s: JsText, from: nat, r: Region)
    requires IsFirst(values, s, from, r)
    ensures NoneIn(values, s, from, r.start) && IsFirst(values, s, r.start, r)
  {}

  lemma LongestFirst(secrets: seq<JsText>)
    requires secrets != [] && forall i, j :: 0 <= i < j < |secrets| ==> |secrets[i]| >= |secrets[j]|
    ensures MaxLength(secrets) == |secrets[0]|
  {
    assert secrets[0] in secrets;
  }

  /** With no secret to look for, a pass emits the text as it is. */
  lemma {:induction false} NothingToMask(values: seq<JsText>, s: JsText)
    requires MaxLength(values) == 0
    ensures PassOut(values, s, |s|) == s && PassRest(values, s, |s|) == []
    decreases |s|
  {
    if s != [] {
      LongestIsLongest(values, s);
      PassStepOut(values, s, |s|, [s[0]], 1, s[1..]);
      NothingToMask(values, s[1..]);
      assert s == [s[0]] + s[1..];
    }
  }
}
