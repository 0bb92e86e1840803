/** A host's output on its way to its database row: each stream is masked, capped in
    bytes and buffered; a flush takes both buffers, appends them with one statement,
    and puts them back in front when the statement fails. */
module OutputPipeline {
  import opened Options
  import opened Utf16
  import opened Utf8
  import opened Utf8Size
  import opened SecretMasking
  import Text

  // ---- The cap: what a stream keeps of the pieces offered to it --------------

  datatype Buf = Buf(pending: JsText, bytes: int, truncated: bool)

  const EMPTY_BUF := Buf([], 0, false)

  /** The database rejects NUL, so it is replaced. */
  function Clean(s: JsText): (r: JsText)
    ensures |r| == |s|
  {
    if s == [] then [] else [if s[0] == 0 then REPLACEMENT else s[0]] + Clean(s[1..])
  }

  lemma {:induction false} CleanAt(s: JsText)
    ensures forall i :: 0 <= i < |s| ==> Clean(s)[i] == if s[i] == 0 then REPLACEMENT else s[i]
    ensures 0 !in Clean(s)
  {
    if s != [] {
      CleanAt(s[1..]);
    }
  }

  /** What is appended when `text` is offered. */
  function Taken(maxBytes: int, buf: Buf, text: JsText): JsText {
    if buf.truncated then []
    else if ByteLength(Clean(text)) <= maxBytes - buf.bytes then Clean(text)
    else TruncateUtf8(Clean(text), maxBytes - buf.bytes)
  }

  function Accept(maxBytes: int, buf: Buf, text: JsText): Buf {
    if text == [] || buf.truncated then buf
    else
      var taken := Taken(maxBytes, buf, text);
      Buf(buf.pending + taken, buf.bytes + ByteLength(taken), ByteLength(Clean(text)) > maxBytes - buf.bytes)
  }

  /** A stream that is never flushed: everything it ever accepted is still pending. */
  function AcceptAll(maxBytes: int, pieces: seq<JsText>): Buf {
    if pieces == [] then EMPTY_BUF
    else Accept(maxBytes, AcceptAll(maxBytes, pieces[..|pieces| - 1]), pieces[|pieces| - 1])
  }

  function CleanAll(pieces: seq<JsText>): JsText {
    if pieces == [] then [] else CleanAll(pieces[..|pieces| - 1]) + Clean(pieces[|pieces| - 1])
  }

  /** How many surrogate pairs the cuts between pieces separate. */
  function PairsSplit(pieces: seq<JsText>): nat {
    if pieces == [] then 0
    else
      var init, last := pieces[..|pieces| - 1], pieces[|pieces| - 1];
      PairsSplit(init) + if SplitsPair(CleanAll(init), Clean(last)) then 1 else 0
  }

  /** The bytes the cap counts for the pieces. */
  function BytesCounted(pieces: seq<JsText>): nat {
    if pieces == [] then 0 else BytesCounted(pieces[..|pieces| - 1]) + |Encode(Clean(pieces[|pieces| - 1]))|
  }

  lemma {:induction false} CountedBytes(pieces: seq<JsText>)
    ensures BytesCounted(pieces) == |Encode(CleanAll(pieces))| + 2 * PairsSplit(pieces)
  {
    if pieces != [] {
      var init, last := pieces[..|pieces| - 1], pieces[|pieces| - 1];
      CountedBytes(init);
      ByteLengthConcat(CleanAll(init), Clean(last));
      EncodedSize(CleanAll(init));
      EncodedSize(Clean(last));
      EncodedSize(CleanAll(pieces));
    }
  }

  /** A buffer that was offered text of which `whole` is the cleaned whole and `counted` the bytes. */
  ghost predicate CapOk(maxBytes: nat, buf: Buf, whole: JsText, counted: nat) {
    && |Encode(buf.pending)| <= buf.bytes <= maxBytes
    && (!buf.truncated ==> buf.pending == whole && buf.bytes == counted)
    && (buf.truncated <==> counted > maxBytes)
  }

  lemma AcceptCap(maxBytes: nat, buf: Buf, text: JsText, clean: JsText, whole: JsText, counted: nat)
    requires CapOk(maxBytes, buf, whole, counted) && clean == Clean(text)
    ensures CapOk(maxBytes, Accept(maxBytes, buf, text), whole + clean, counted + |Encode(clean)|)
  {
    var taken := Taken(maxBytes, buf, text);
    TruncateFits(clean, maxBytes - buf.bytes);
    EncodedSize(clean);
    EncodedSize(taken);
    AppendFits(buf.pending, taken);
    if text == [] {
      assert whole + clean == whole;
    }
  }

  lemma AppendFits(pending: JsText, taken: JsText)
    ensures |Encode(pending + taken)| <= |Encode(pending)| + |Encode(taken)|
  {
    ByteLengthConcat(pending, taken);
    EncodedSize(pending);
    EncodedSize(taken);
    EncodedSize(pending + taken);
  }

  lemma {:induction false} PiecesCap(maxBytes: nat, pieces: seq<JsText>)
    ensures CapOk(maxBytes, AcceptAll(maxBytes, pieces), CleanAll(pieces), BytesCounted(pieces))
  {
    if pieces != [] {
      var init, last := pieces[..|pieces| - 1], pieces[|pieces| - 1];
      PiecesCap(maxBytes, init);
      AcceptCap(maxBytes, AcceptAll(maxBytes, init), last, Clean(last), CleanAll(init), BytesCounted(init));
    }
  }

  /** The cap, for every sequence of pieces: never more than `maxBytes`, and everything is
      kept exactly when its size, plus two for each pair a piece boundary splits, fits. */
  lemma CapIsExact(maxBytes: nat, pieces: seq<JsText>)
    ensures var buf := AcceptAll(maxBytes, pieces);
      && |Encode(buf.pending)| <= buf.bytes <= maxBytes
      && (!buf.truncated ==> buf.pending == CleanAll(pieces) && buf.bytes == BytesCounted(pieces))
      && (buf.truncated <==> |Encode(CleanAll(pieces))| + 2 * PairsSplit(pieces) > maxBytes)
  {
    PiecesCap(maxBytes, pieces);
    CountedBytes(pieces);
  }

  lemma {:induction false} CleanKeepsWellFormed(s: JsText)
    requires WellFormed(s)
    ensures WellFormed(Clean(s))
    decreases |s|
  {
    if s != [] {
      var n := FirstUnits(s);
      CleanKeepsWellFormed(s[n..]);
      CleanDrop(s, n);
      assert n == 2 ==> Clean(s)[1] == Clean(s[1..])[0];
    }
  }

  lemma {:induction false} CleanDrop(s: JsText, n: nat)
    requires n <= |s|
    ensures Clean(s)[n..] == Clean(s[n..])
  {
    if n > 0 {
      CleanDrop(s[1..], n - 1);
      assert s[1..][n - 1..] == s[n..];
      assert Clean(s)[n..] == Clean(s[1..])[n - 1..];
    }
  }

  lemma {:induction false} WellFormedConcat(a: JsText, b: JsText)
    requires WellFormed(a) && WellFormed(b)
    ensures WellFormed(a + b) && !SplitsPair(a, b)
    decreases |a|
  {
    if a == [] {
      assert a + b == b;
    } else {
      var n := FirstUnits(a);
      WellFormedConcat(a[n..], b);
      assert (a + b)[n..] == a[n..] + b && FirstUnits(a + b) == n;
      assert n < |a| ==> a[n..][|a| - n - 1] == a[|a| - 1];
    }
  }

  lemma {:induction false} PiecesWellFormed(pieces: seq<JsText>)
    requires forall i :: 0 <= i < |pieces| ==> WellFormed(pieces[i])
    ensures WellFormed(CleanAll(pieces)) && PairsSplit(pieces) == 0
  {
    if pieces != [] {
      var init, last := pieces[..|pieces| - 1], pieces[|pieces| - 1];
      PiecesWellFormed(init);
      CleanKeepsWellFormed(last);
      WellFormedConcat(CleanAll(init), Clean(last));
    }
  }

  /** `p` is the beginning of `s` unit by unit, with some units replaced. */
  predicate Resembles(p: JsText, s: JsText) {
    |p| <= |s| && forall i :: 0 <= i < |p| ==> p[i] == s[i] || p[i] == REPLACEMENT
  }

  /** The piece with which the stream was cut. */
  function CutPiece(maxBytes: int, pieces: seq<JsText>): (t: nat)
    requires AcceptAll(maxBytes, pieces).truncated
    ensures t < |pieces|
  {
    var init := pieces[..|pieces| - 1];
    if AcceptAll(maxBytes, init).truncated then CutPiece(maxBytes, init) else |init|
  }

  /** Nothing was cut, or what is kept of the piece that was cut holds no lone half. */
  predicate CutInWhole(maxBytes: int, pieces: seq<JsText>) {
    AcceptAll(maxBytes, pieces).truncated ==>
      var t := CutPiece(maxBytes, pieces);
      KeepsWhole(Clean(pieces[t]), maxBytes - AcceptAll(maxBytes, pieces[..t]).bytes)
  }

  lemma AcceptCuts(maxBytes: int, buf: Buf, text: JsText)
    requires !buf.truncated && Accept(maxBytes, buf, text).truncated
    ensures ByteLength(Clean(text)) > maxBytes - buf.bytes
    ensures Accept(maxBytes, buf, text).pending == buf.pending + TruncateUtf8(Clean(text), maxBytes - buf.bytes)
  {}

  /** The piece that is cut: everything before it was kept, and later pieces are dropped. */
  lemma {:induction false} CutSplits(maxBytes: int, pieces: seq<JsText>) returns (before: JsText, piece: JsText, room: int, after: JsText)
    requires AcceptAll(maxBytes, pieces).truncated
    ensures var t := CutPiece(maxBytes, pieces);
      piece == Clean(pieces[t]) && room == maxBytes - AcceptAll(maxBytes, pieces[..t]).bytes && ByteLength(piece) > room
    ensures CleanAll(pieces) == before + piece + after
    ensures AcceptAll(maxBytes, pieces).pending == before + TruncateUtf8(piece, room)
  {
    var init, last := pieces[..|pieces| - 1], pieces[|pieces| - 1];
    var buf := AcceptAll(maxBytes, init);
    if buf.truncated {
      before, piece, room, after := CutSplits(maxBytes, init);
      assert init[..CutPiece(maxBytes, init)] == pieces[..CutPiece(maxBytes, init)];
      Text.Regroup(before + piece, after, Clean(last));
      after := after + Clean(last);
    } else {
      UntruncatedIsWhole(maxBytes, init);
      AcceptCuts(maxBytes, buf, last);
      before, piece, room, after := buf.pending, Clean(last), maxBytes - buf.bytes, [];
      assert before + piece + [] == before + piece;
    }
  }

  lemma {:induction false} UntruncatedIsWhole(maxBytes: int, pieces: seq<JsText>)
    ensures var buf := AcceptAll(maxBytes, pieces);
      !buf.truncated ==> buf.pending == CleanAll(pieces)
  {
    if pieces != [] {
      var init, last := pieces[..|pieces| - 1], pieces[|pieces| - 1];
      UntruncatedIsWhole(maxBytes, init);
      assert last == [] ==> CleanAll(init) + Clean(last) == CleanAll(init);
    }
  }

  lemma CutResembles(s: JsText, room: int, kept: JsText)
    requires ByteLength(s) > room && kept == TruncateUtf8(s, room)
    ensures Resembles(kept, s)
  {
    CutAt(s, room);
  }

  lemma CutOfWhole(before: JsText, kept: JsText, piece: JsText, after: JsText, whole: JsText)
    requires whole == before + piece + after && |kept| <= |piece|
    ensures IsPrefix(before + kept, whole) <==> IsPrefix(kept, piece)
    ensures Resembles(kept, piece) ==> Resembles(before + kept, whole)
  {
    assert whole[|before|..][..|kept|] == piece[..|kept|];
    assert whole[..|before| + |kept|] == before + piece[..|kept|];
    if IsPrefix(before + kept, whole) {
      assert (before + kept)[|before|..] == kept;
    }
  }

  lemma PrefixOfItself(s: JsText)
    ensures Resembles(s, s) && IsPrefix(s, s)
  {}

  lemma KeptOfCut(maxBytes: int, pieces: seq<JsText>, kept: JsText, whole: JsText)
    requires AcceptAll(maxBytes, pieces).truncated && kept == AcceptAll(maxBytes, pieces).pending && whole == CleanAll(pieces)
    ensures Resembles(kept, whole) && (IsPrefix(kept, whole) <==> CutInWhole(maxBytes, pieces))
  {
    var before, piece, room, after := CutSplits(maxBytes, pieces);
    CutInWholeMeans(maxBytes, pieces, piece, room);
    KeptOfPiece(before, piece, room, after, kept, whole);
  }

  lemma CutInWholeMeans(maxBytes: int, pieces: seq<JsText>, piece: JsText, room: int)
    requires AcceptAll(maxBytes, pieces).truncated
    requires var t := CutPiece(maxBytes, pieces);
      piece == Clean(pieces[t]) && room == maxBytes - AcceptAll(maxBytes, pieces[..t]).bytes
    ensures CutInWhole(maxBytes, pieces) == KeepsWhole(piece, room)
  {}

  lemma KeptOfPiece(before: JsText, piece: JsText, room: int, after: JsText, kept: JsText, whole: JsText)
    requires ByteLength(piece) > room && kept == before + TruncateUtf8(piece, room) && whole == before + piece + after
    ensures Resembles(kept, whole) && (IsPrefix(kept, whole) <==> KeepsWhole(piece, room))
  {
    var part := TruncateUtf8(piece, room);
    CutIsPrefixIff(piece, room);
    CutResembles(piece, room, part);
    CutOfWhole(before, part, piece, after, whole);
  }

  /** The cut, for every sequence of pieces, whatever halves of characters they carry: unit by
      unit the kept text is the stream, up to replaced halves; it is a prefix of the stream
      exactly when nothing was cut or no half was replaced in the piece that was. */
  lemma KeptIsPrefixIff(maxBytes: int, pieces: seq<JsText>)
    ensures var kept, whole := AcceptAll(maxBytes, pieces).pending, CleanAll(pieces);
      && Resembles(kept, whole)
      && (IsPrefix(kept, whole) <==> CutInWhole(maxBytes, pieces))
  {
    if AcceptAll(maxBytes, pieces).truncated {
      KeptOfCut(maxBytes, pieces, AcceptAll(maxBytes, pieces).pending, CleanAll(pieces));
    } else {
      UntruncatedIsWhole(maxBytes, pieces);
      PrefixOfItself(CleanAll(pieces));
    }
  }

  lemma {:induction false} WellFormedHasNoLone(s: JsText)
    requires WellFormed(s)
    ensures NoneLone(s, |s|)
    decreases |s|
  {
    RecodeOfWellFormed(s);
    RecodeAt(s);
    forall i | 0 <= i < |s|
      ensures !LoneAt(s, i)
    {
      assert Recode(s)[i] == s[i];
    }
  }

  /** When no piece carries half a character, what is kept is a prefix of the whole text,
      and all of it exactly when it fits. */
  lemma KeptIsPrefix(maxBytes: nat, pieces: seq<JsText>)
    requires forall i :: 0 <= i < |pieces| ==> WellFormed(pieces[i])
    ensures IsPrefix(AcceptAll(maxBytes, pieces).pending, CleanAll(pieces))
    ensures AcceptAll(maxBytes, pieces).truncated <==> |Encode(CleanAll(pieces))| > maxBytes
  {
    KeptIsPrefixIff(maxBytes, pieces);
    CapIsExact(maxBytes, pieces);
    EncodedSize(CleanAll(pieces));
    PiecesWellFormed(pieces);
    if AcceptAll(maxBytes, pieces).truncated {
      var before, piece, room, after := CutSplits(maxBytes, pieces);
      CleanKeepsWellFormed(pieces[CutPiece(maxBytes, pieces)]);
      WellFormedHasNoLone(piece);
      CutAt(piece, room);
    }
  }

  // ---- What a masker that cuts pairs does to the cap ---------------------------

  /** ASCII without NUL. */
  predicate Plain(s: JsText) {
    forall i :: 0 <= i < |s| ==> 0 < s[i] < 0x80
  }

  const HIGH: JsText := [0xD83D]
  const LOW: JsText := [0xDE00]

  lemma {:induction false} PlainBytes(s: JsText)
    requires Plain(s)
    ensures ByteLength(s) == |s| && Clean(s) == s
  {
    if s != [] {
      PlainBytes(s[1..]);
      assert s == [s[0]] + s[1..];
    }
  }

  /** Where no secret occurs, the masker lets through all but its tail. */
  lemma FreePass(values: seq<JsText>, s: JsText, n: nat)
    requires NoneIn(values, s, 0, |s|) && n <= |s|
    ensures PassOut(values, s, n) == s[..n] && PassRest(values, s, n) == s[n..]
  {
    PassCopies(values, s, 0, n, n);
    WholePass(values, s, n);
    assert s[0..n] + [] == s[..n];
  }

  /** Where no secret occurs in the whole, none occurs in a part. */
  lemma FreePart(values: seq<JsText>, whole: JsText, a: JsText, s: JsText, b: JsText)
    requires whole == a + s + b && NoneIn(values, whole, 0, |whole|)
    ensures NoneIn(values, s, 0, |s|)
  {
    forall p: nat, v | 0 <= p < |s| && v in values && v != []
      ensures !OccursAt(v, s, p)
    {
      OccursInWhole(whole, a, s, b, v, p);
    }
  }

  lemma OccursInWhole(whole: JsText, a: JsText, s: JsText, b: JsText, v: JsText, p: nat)
    requires whole == a + s + b
    ensures OccursAt(v, s, p) ==> OccursAt(v, whole, |a| + p)
  {
    if p + |v| <= |s| {
      assert whole[|a| + p..|a| + p + |v|] == s[p..p + |v|];
    }
  }

  lemma HalfBytes(a: JsText, half: JsText)
    requires Plain(a) && (half == HIGH || half == LOW)
    ensures ByteLength(a + half) == |a| + 3 && Clean(a + half) == a + half
    ensures ByteLength(half + a) == |a| + 3 && Clean(half + a) == half + a
  {
    PlainBytes(a);
    ByteLengthConcat(a, half);
    ByteLengthConcat(half, a);
    CleanConcat(a, half);
    CleanConcat(half, a);
    assert half[1..] == [];
  }

  /** For every cap and every list of secrets whose longest has at least two units: a text of
      exactly `maxBytes` bytes in which no secret occurs, offered in one chunk, is truncated,
      because the masker holds back the second half of its one wide character. */
  lemma MaskedPairIsOvercounted(maxBytes: nat, values: seq<JsText>, a: JsText, b: JsText)
    requires MaxLength(values) == |b| + 2 && Plain(a) && Plain(b) && |a| + 4 + |b| == maxBytes
    requires NoneIn(values, a + HIGH + LOW + b, 0, |a + HIGH + LOW + b|)
    ensures var text := a + HIGH + LOW + b;
      var pieces := Pieces(values, [], [text]);
      && |Encode(text)| == maxBytes
      && CleanAll(pieces) == text
      && AcceptAll(maxBytes, pieces).truncated && AcceptAll(maxBytes, pieces).pending != text
  {
    var text, first, held := a + HIGH + LOW + b, a + HIGH, LOW + b;
    assert text == first + held;
    PairBytes(a, b, first, held);
    EncodedSize(text);
    OneChunkPieces(values, text, first, held);
    HeldHalfIsCut(maxBytes, first, held, |b| + 1);
  }

  lemma PairBytes(a: JsText, b: JsText, first: JsText, held: JsText)
    requires Plain(a) && Plain(b) && first == a + HIGH && held == LOW + b
    ensures Clean(first) == first && Clean(held) == held
    ensures ByteLength(first) == |a| + 3 && ByteLength(held) == |b| + 3
    ensures ByteLength(first + held) == |a| + 4 + |b|
  {
    HalfBytes(a, HIGH);
    HalfBytes(b, LOW);
    ByteLengthConcat(first, held);
  }

  lemma HeldHalfIsCut(maxBytes: nat, first: JsText, held: JsText, room: nat)
    requires first != [] && held != [] && IsLow(held[0]) && Clean(first) == first && Clean(held) == held
    requires room <= maxBytes && ByteLength(first) == maxBytes - room && ByteLength(held) > room
    ensures var buf := AcceptAll(maxBytes, [first, held]);
      buf.truncated && buf.pending != first + held && CleanAll([first, held]) == first + held
  {
    TwoPieces(maxBytes, first, held);
    HalfIsReplaced(first, held, room);
  }

  lemma OneChunkPieces(values: seq<JsText>, text: JsText, first: JsText, held: JsText)
    requires text == first + held && |held| == MaxLength(values) - 1
    requires NoneIn(values, text, 0, |text|)
    ensures Pieces(values, [], [text]) == [first, held]
  {
    assert [] + text == text && text[..|first|] == first && text[|first|..] == held && text == first + held + [];
    FreePart(values, text, first, held, []);
    FreePass(values, text, |first|);
    FreePass(values, held, |held|);
    assert held[..|held|] == held && [text][1..] == [];
  }

  /** A low half at the front of a piece that is cut is not kept as it is. */
  lemma HalfIsReplaced(first: JsText, second: JsText, room: int)
    requires second != [] && IsLow(second[0]) && ByteLength(second) > room
    ensures first + TruncateUtf8(second, room) != first + second
  {
    CutAt(second, room);
    SameTail(first, TruncateUtf8(second, room), second);
    assert LoneAt(second, 0);
  }

  /** The second piece is the one that is cut. */
  lemma TwoPieces(maxBytes: nat, first: JsText, second: JsText)
    requires first != [] && second != [] && Clean(first) == first && Clean(second) == second
    requires ByteLength(first) <= maxBytes < ByteLength(first) + ByteLength(second)
    ensures var buf := AcceptAll(maxBytes, [first, second]);
      buf.truncated && buf.pending == first + TruncateUtf8(second, maxBytes - ByteLength(first))
    ensures CutPiece(maxBytes, [first, second]) == 1
    ensures CleanAll([first, second]) == first + second
    ensures AcceptAll(maxBytes, [first]) == Buf(first, ByteLength(first), false)
  {
    var one, both := [first], [first, second];
    FirstFits(maxBytes, first);
    assert one + [second] == both && both[..1] == one;
    AcceptedPieces(maxBytes, one, second);
    AcceptCuts(maxBytes, AcceptAll(maxBytes, one), second);
  }

  lemma FirstFits(maxBytes: nat, first: JsText)
    requires first != [] && Clean(first) == first && ByteLength(first) <= maxBytes
    ensures AcceptAll(maxBytes, [first]) == Buf(first, ByteLength(first), false)
    ensures CleanAll([first]) == first
  {
    assert [first][..0] == [];
    assert EMPTY_BUF.pending + first == first && CleanAll([]) + first == first;
  }

  /** Pieces after the cut change neither it nor what is kept. */
  lemma LaterPiece(maxBytes: nat, pieces: seq<JsText>, last: JsText)
    requires AcceptAll(maxBytes, pieces).truncated
    ensures AcceptAll(maxBytes, pieces + [last]) == AcceptAll(maxBytes, pieces)
    ensures CutPiece(maxBytes, pieces + [last]) == CutPiece(maxBytes, pieces)
  {
    assert (pieces + [last])[..|pieces|] == pieces;
  }

  /** For every such list of secrets there is, at every cap from seven on, a text whose cut leaves
      a replacement character in place of a half that the stream has whole. */
  lemma CutHalfIsReplaced(maxBytes: nat, values: seq<JsText>, a: JsText, b: JsText, c: JsText)
    requires MaxLength(values) == |b| + 2 && Plain(a) && Plain(b) && Plain(c) && |a| + 7 == maxBytes && |c| == 3
    requires NoneIn(values, a + HIGH + LOW + b + c, 0, |a + HIGH + LOW + b + c|)
    ensures var pieces := Pieces(values, [], [a + HIGH + LOW + b, c]);
      !IsPrefix(AcceptAll(maxBytes, pieces).pending, CleanAll(pieces))
  {
    var chunk, first, held := a + HIGH + LOW + b, a + HIGH, LOW + b;
    assert chunk == first + held;
    ChunkCutInSecond(maxBytes, values, a, b, c, chunk, first, held);
  }

  lemma ChunkCutInSecond(
    maxBytes: nat, values: seq<JsText>, a: JsText, b: JsText, c: JsText, chunk: JsText, first: JsText, held: JsText)
    requires MaxLength(values) == |b| + 2 && Plain(a) && Plain(b) && Plain(c) && |a| + 7 == maxBytes && |c| == 3
    requires chunk == first + held && first == a + HIGH && held == LOW + b && NoneIn(values, chunk + c, 0, |chunk + c|)
    ensures var pieces := Pieces(values, [], [chunk, c]); !IsPrefix(AcceptAll(maxBytes, pieces).pending, CleanAll(pieces))
  {
    var tail := (b + c)[..2];
    var second, third := LOW + tail, (held + c)[3..];
    assert (held + c)[..3] == second;
    ThreePieces(values, chunk, first, held, c);
    HalfInSecond(maxBytes, a, first, tail, second, third);
  }

  lemma HalfInSecond(maxBytes: nat, a: JsText, first: JsText, tail: JsText, second: JsText, third: JsText)
    requires Plain(a) && Plain(tail) && |a| + 7 == maxBytes && |tail| == 2
    requires first == a + HIGH && second == LOW + tail
    ensures !IsPrefix(AcceptAll(maxBytes, [first, second, third]).pending, CleanAll([first, second, third]))
  {
    PairBytes(a, tail, first, second);
    HalfIsKept(second, tail);
    CutInSecond(maxBytes, first, second, third);
  }

  lemma CutInSecond(maxBytes: nat, first: JsText, second: JsText, third: JsText)
    requires first != [] && second != [] && IsLow(second[0]) && Clean(first) == first && Clean(second) == second
    requires 4 <= maxBytes && ByteLength(first) == maxBytes - 4 && ByteLength(second) > 4 && |TruncateUtf8(second, 4)| > 0
    ensures !IsPrefix(AcceptAll(maxBytes, [first, second, third]).pending, CleanAll([first, second, third]))
  {
    var pieces := [first, second, third];
    TwoPieces(maxBytes, first, second);
    assert pieces == [first, second] + [third] && pieces[..1] == [first];
    LaterPiece(maxBytes, [first, second], third);
    KeptIsPrefixIff(maxBytes, pieces);
    CutInWholeMeans(maxBytes, pieces, second, 4);
    assert LoneAt(second, 0);
  }

  lemma ThreePieces(values: seq<JsText>, chunk: JsText, first: JsText, held: JsText, c: JsText)
    requires chunk == first + held && |held| == MaxLength(values) - 1 && |held| > 0 && |c| == 3
    requires NoneIn(values, chunk + c, 0, |chunk + c|)
    ensures Pieces(values, [], [chunk, c]) == [first, (held + c)[..3], (held + c)[3..]]
  {
    var whole, mid := chunk + c, held + c;
    assert [] + chunk == chunk && chunk[..|first|] == first && chunk[|first|..] == held;
    assert whole == [] + chunk + c && whole == first + mid + [];
    FreePart(values, whole, [], chunk, c);
    FreePart(values, whole, first, mid, []);
    FreePass(values, chunk, |first|);
    HeldPieces(values, held, c, mid[3..]);
    assert [chunk, c][1..] == [c];
  }

  lemma HeldPieces(values: seq<JsText>, held: JsText, c: JsText, last: JsText)
    requires |held| == MaxLength(values) - 1 && |c| == 3 && last == (held + c)[3..]
    requires NoneIn(values, held + c, 0, |held + c|)
    ensures Pieces(values, held, [c]) == [(held + c)[..3], last]
  {
    var mid := held + c;
    assert mid == mid[..3] + last + [];
    FreePart(values, mid, mid[..3], last, []);
    FreePass(values, mid, 3);
    FreePass(values, last, |last|);
    assert last[..|last|] == last && [c][1..] == [];
  }

  /** Four bytes have room for the half and one more unit. */
  lemma HalfIsKept(second: JsText, tail: JsText)
    requires second == LOW + tail && |tail| == 2 && Plain(tail)
    ensures |TruncateUtf8(second, 4)| > 1
  {
    HalfBytes(tail, LOW);
    var start := tail[..1];
    HalfBytes(start, LOW);
    assert second[..2] == LOW + start;
    FitIsLongest(second, 4, 2);
    TruncateIsFit(second, 4);
    FitIsPrefix(second, 4);
    RecodeAt(Fit(second, 4));
    StripIsPrefix(Recode(Fit(second, 4)), TruncateUtf8(second, 4));
    assert !LoneAt(second, 1);
  }

  // ---- Flushing: nothing lost, nothing twice, in order ------------------------

  /** Text and flag of an append under way. */
  datatype Taking = Taking(text: JsText, trunc: bool)

  /** One stream of a host: its buffer, its append under way, its columns of the row, and whether
      the truncation flag is known to be stored. */
  datatype Channel = Channel(buf: Buf, inFlight: Option<Taking>, row: JsText, rowTruncated: bool, noted: bool)

  datatype Host = Host(out: Channel, err: Channel)

  datatype Event =
    | Offer(toErr: bool, text: JsText)  // the masker let `text` through
    | FlushBegin                        // a chained flush takes both buffers
    | FlushOk                           // its statement committed
    | FlushFailed                       // its statement failed and changed nothing

  const NEW_CHANNEL := Channel(EMPTY_BUF, None, [], false, false)

  const NEW_HOST := Host(NEW_CHANNEL, NEW_CHANNEL)

  function NextTaking(c: Channel): Taking {
    Taking(c.buf.pending, c.buf.truncated && !c.noted)
  }

  function Take(c: Channel): Channel {
    c.(buf := c.buf.(pending := []), inFlight := Some(NextTaking(c)))
  }

  /** The append committed. The column is UTF-8: a half that arrives without its other half is
      stored as a replacement character. */
  function Commit(c: Channel): Channel {
    if c.inFlight.None? then c
    else
      var t := c.inFlight.value;
      c.(row := c.row + Recode(t.text), rowTruncated := c.rowTruncated || t.trunc, noted := c.noted || t.trunc, inFlight := None)
  }

  /** The append failed: its text goes back in front of what arrived meanwhile. */
  function PutBack(c: Channel): Channel {
    if c.inFlight.None? then c
    else c.(buf := c.buf.(pending := c.inFlight.value.text + c.buf.pending), inFlight := None)
  }

  predicate Flushing(h: Host) {
    h.out.inFlight.Some? || h.err.inFlight.Some?
  }

  /** Flushes are chained, so one begins only when none is in flight. */
  function Step(maxBytes: int, h: Host, e: Event): Host {
    match e
    case Offer(toErr, text) =>
      if toErr then h.(err := h.err.(buf := Accept(maxBytes, h.err.buf, text)))
      else h.(out := h.out.(buf := Accept(maxBytes, h.out.buf, text)))
    case FlushBegin =>
      if Flushing(h) || (NextTaking(h.out) == NextTaking(h.err) == Taking([], false)) then h
      else Host(Take(h.out), Take(h.err))
    case FlushOk => Host(Commit(h.out), Commit(h.err))
    case FlushFailed => Host(PutBack(h.out), PutBack(h.err))
  }

  function Run(maxBytes: int, events: seq<Event>): Host {
    if events == [] then NEW_HOST else Step(maxBytes, Run(maxBytes, events[..|events| - 1]), events[|events| - 1])
  }

  function Of(h: Host, toErr: bool): Channel {
    if toErr then h.err else h.out
  }

  /** The pieces offered to one stream. */
  function Offered(events: seq<Event>, toErr: bool): seq<JsText> {
    if events == [] then []
    else
      var e := events[|events| - 1];
      Offered(events[..|events| - 1], toErr) + if e.Offer? && e.toErr == toErr then [e.text] else []
  }

  /** The texts that its committed flushes appended. */
  function Flushed(maxBytes: int, events: seq<Event>, toErr: bool): seq<JsText> {
    if events == [] then []
    else
      var init, e := events[..|events| - 1], events[|events| - 1];
      var c := Of(Run(maxBytes, init), toErr);
      Flushed(maxBytes, init, toErr) + if e.FlushOk? && c.inFlight.Some? then [c.inFlight.value.text] else []
  }

  /** What separate appends of the texts leave in the column. */
  function RecodeAll(texts: seq<JsText>): JsText {
    if texts == [] then [] else Recode(texts[0]) + RecodeAll(texts[1..])
  }

  function InFlight(c: Channel): JsText {
    if c.inFlight.Some? then c.inFlight.value.text else []
  }

  /** What a stream's state says about the pieces offered and the texts appended so far. */
  ghost predicate Tracks(maxBytes: int, c: Channel, pieces: seq<JsText>, flushed: seq<JsText>) {
    var all := AcceptAll(maxBytes, pieces);
    && Concat(flushed) + (InFlight(c) + c.buf.pending) == all.pending
    && c.row == RecodeAll(flushed)
    && ByteLength(c.row) + ByteLength(InFlight(c)) + ByteLength(c.buf.pending) <= all.bytes
    && c.buf.bytes == all.bytes && c.buf.truncated == all.truncated
    && c.rowTruncated == c.noted && (c.noted ==> all.truncated)
    && (c.inFlight.Some? && c.inFlight.value.trunc ==> all.truncated)
  }

  lemma {:induction false} RecodeAllAppend(texts: seq<JsText>, last: JsText)
    ensures RecodeAll(texts + [last]) == RecodeAll(texts) + Recode(last)
  {
    var more := texts + [last];
    if texts == [] {
      assert more == [last] && more[1..] == [];
    } else {
      assert more[0] == texts[0] && more[1..] == texts[1..] + [last];
      RecodeAllAppend(texts[1..], last);
    }
  }

  lemma ConcatIsShorter(a: JsText, b: JsText)
    ensures ByteLength(a + b) <= ByteLength(a) + ByteLength(b)
  {
    ByteLengthConcat(a, b);
  }

  /** Accepting text commutes with whatever is no longer in the buffer: `t` is what is appended. */
  lemma AcceptAppends(maxBytes: int, buf: Buf, whole: Buf, text: JsText) returns (t: JsText)
    requires buf.bytes == whole.bytes && buf.truncated == whole.truncated
    ensures var after := Accept(maxBytes, whole, text);
      && Accept(maxBytes, buf, text) == Buf(buf.pending + t, after.bytes, after.truncated)
      && after.pending == whole.pending + t && after.bytes == whole.bytes + ByteLength(t)
      && (whole.truncated ==> after.truncated)
  {
    if text == [] || buf.truncated {
      t := [];
      assert buf.pending + [] == buf.pending && whole.pending + [] == whole.pending;
    } else {
      t := Taken(maxBytes, buf, text);
    }
  }

  lemma AcceptedPieces(maxBytes: int, pieces: seq<JsText>, text: JsText)
    ensures AcceptAll(maxBytes, pieces + [text]) == Accept(maxBytes, AcceptAll(maxBytes, pieces), text)
  {
    assert (pieces + [text])[..|pieces|] == pieces;
  }

  lemma Appended(a: JsText, b: JsText, pending: JsText, t: JsText)
    ensures a + (b + (pending + t)) == (a + (b + pending)) + t
  {}

  lemma OfferKeepsTrack(maxBytes: int, c: Channel, pieces: seq<JsText>, flushed: seq<JsText>, text: JsText)
    requires Tracks(maxBytes, c, pieces, flushed)
    ensures Tracks(maxBytes, c.(buf := Accept(maxBytes, c.buf, text)), pieces + [text], flushed)
  {
    AcceptedPieces(maxBytes, pieces, text);
    var t := AcceptAppends(maxBytes, c.buf, AcceptAll(maxBytes, pieces), text);
    Appended(Concat(flushed), InFlight(c), c.buf.pending, t);
    ConcatIsShorter(c.buf.pending, t);
  }

  lemma TakeKeepsTrack(maxBytes: int, c: Channel, pieces: seq<JsText>, flushed: seq<JsText>)
    requires Tracks(maxBytes, c, pieces, flushed) && c.inFlight.None?
    ensures Tracks(maxBytes, Take(c), pieces, flushed)
  {
    var p := c.buf.pending;
    assert [] + p == p && p + [] == p;
  }

  lemma CommitKeepsTrack(maxBytes: int, c: Channel, pieces: seq<JsText>, flushed: seq<JsText>)
    requires Tracks(maxBytes, c, pieces, flushed)
    ensures c.inFlight.Some? ==> Tracks(maxBytes, Commit(c), pieces, flushed + [c.inFlight.value.text])
    ensures c.inFlight.None? ==> Tracks(maxBytes, Commit(c), pieces, flushed)
  {
    if c.inFlight.Some? {
      var t := c.inFlight.value.text;
      AppendText(c.row, flushed, t, c.buf.pending);
    }
  }

  lemma AppendText(row: JsText, flushed: seq<JsText>, t: JsText, pending: JsText)
    requires row == RecodeAll(flushed)
    ensures Concat(flushed + [t]) + ([] + pending) == Concat(flushed) + (t + pending)
    ensures row + Recode(t) == RecodeAll(flushed + [t])
    ensures ByteLength(row + Recode(t)) <= ByteLength(row) + ByteLength(t)
  {
    ConcatAppend(flushed, t);
    RecodeAllAppend(flushed, t);
    RecodeKeepsLength(t);
    ConcatIsShorter(row, Recode(t));
    MiddleMoves(Concat(flushed), t, pending);
  }

  lemma MiddleMoves(a: JsText, t: JsText, p: JsText)
    ensures a + t + ([] + p) == a + (t + p)
  {}

  lemma PutBackKeepsTrack(maxBytes: int, c: Channel, pieces: seq<JsText>, flushed: seq<JsText>)
    requires Tracks(maxBytes, c, pieces, flushed)
    ensures Tracks(maxBytes, PutBack(c), pieces, flushed)
  {
    if c.inFlight.Some? {
      var t, p := c.inFlight.value.text, c.buf.pending;
      ConcatIsShorter(t, p);
      assert [] + (t + p) == t + p;
    }
  }

  lemma {:induction false} RunTracks(maxBytes: int, events: seq<Event>, toErr: bool)
    ensures Tracks(maxBytes, Of(Run(maxBytes, events), toErr), Offered(events, toErr), Flushed(maxBytes, events, toErr))
  {
    if events != [] {
      var init, e := events[..|events| - 1], events[|events| - 1];
      RunTracks(maxBytes, init, toErr);
      var c, pieces, flushed := Of(Run(maxBytes, init), toErr), Offered(init, toErr), Flushed(maxBytes, init, toErr);
      assert pieces + [] == pieces && flushed + [] == flushed;
      match e
      case Offer(_, text) => if e.toErr == toErr { OfferKeepsTrack(maxBytes, c, pieces, flushed, text); }
      case FlushBegin => if c.inFlight.None? { TakeKeepsTrack(maxBytes, c, pieces, flushed); }
      case FlushOk => CommitKeepsTrack(maxBytes, c, pieces, flushed);
      case FlushFailed => PutBackKeepsTrack(maxBytes, c, pieces, flushed);
    }
  }

  /** Over every interleaving of output and flushes, with any flushes failing, for each of the two
      streams: the texts appended, then in-flight text, then pending text are exactly what was
      accepted; the column holds those texts, each as UTF-8, and no more than `maxBytes` bytes of
      it; everything is kept when it fits; and a stored flag never claims too much. */
  lemma NothingLostOrDuplicated(maxBytes: nat, events: seq<Event>, toErr: bool)
    ensures var c, pieces, flushed := Of(Run(maxBytes, events), toErr), Offered(events, toErr), Flushed(maxBytes, events, toErr);
      && Concat(flushed) + (InFlight(c) + c.buf.pending) == AcceptAll(maxBytes, pieces).pending
      && c.row == RecodeAll(flushed) && Encode(c.row) == BytesOf(flushed)
      && |Encode(c.row)| + |Encode(InFlight(c))| + |Encode(c.buf.pending)| <= maxBytes
      && (!c.buf.truncated ==> AcceptAll(maxBytes, pieces).pending == CleanAll(pieces))
      && (c.buf.truncated <==> BytesCounted(pieces) > maxBytes)
      && (c.rowTruncated ==> c.buf.truncated)
  {
    var c, pieces := Of(Run(maxBytes, events), toErr), Offered(events, toErr);
    RunTracks(maxBytes, events, toErr);
    CapIsExact(maxBytes, pieces);
    CountedBytes(pieces);
    ColumnBytes(Flushed(maxBytes, events, toErr));
    EncodedSize(c.row);
    EncodedSize(InFlight(c));
    EncodedSize(c.buf.pending);
  }

  /** What happens to a host after some moment. */
  function After(maxBytes: int, h: Host, events: seq<Event>): Host {
    if events == [] then h else Step(maxBytes, After(maxBytes, h, events[..|events| - 1]), events[|events| - 1])
  }

  /** The stream as it would be had its append not begun. */
  predicate Undone(taken: Channel, kept: Channel) {
    PutBack(taken) == kept.(inFlight := None) && kept.inFlight.None?
  }

  lemma AcceptWhileTaken(maxBytes: int, taken: Channel, kept: Channel, text: JsText)
    requires Undone(taken, kept)
    ensures Undone(taken.(buf := Accept(maxBytes, taken.buf, text)), kept.(buf := Accept(maxBytes, kept.buf, text)))
  {
    if taken.inFlight.Some? && text != [] && !taken.buf.truncated {
      Text.Regroup(taken.inFlight.value.text, taken.buf.pending, Taken(maxBytes, taken.buf, text));
    }
  }

  lemma {:induction false} OffersWhileTaken(maxBytes: int, h: Host, offers: seq<Event>)
    requires !Flushing(h) && forall e :: e in offers ==> e.Offer?
    ensures var taken, kept := After(maxBytes, Step(maxBytes, h, FlushBegin), offers), After(maxBytes, h, offers);
      Undone(taken.out, kept.out) && Undone(taken.err, kept.err)
    decreases |offers|
  {
    if offers == [] {
      assert h.out.buf.pending + [] == h.out.buf.pending && h.err.buf.pending + [] == h.err.buf.pending;
    } else {
      var init, e := offers[..|offers| - 1], offers[|offers| - 1];
      assert e in offers && forall x :: x in init ==> x in offers;
      OffersWhileTaken(maxBytes, h, init);
      var taken, kept := After(maxBytes, Step(maxBytes, h, FlushBegin), init), After(maxBytes, h, init);
      AcceptWhileTaken(maxBytes, taken.out, kept.out, e.text);
      AcceptWhileTaken(maxBytes, taken.err, kept.err, e.text);
    }
  }

  lemma {:induction false} RunAfter(maxBytes: int, events: seq<Event>, more: seq<Event>)
    ensures Run(maxBytes, events + more) == After(maxBytes, Run(maxBytes, events), more)
    decreases |more|
  {
    var all := events + more;
    if more == [] {
      assert all == events;
    } else {
      var init := more[..|more| - 1];
      RunAfter(maxBytes, events, init);
      assert all[..|all| - 1] == events + init && all[|all| - 1] == more[|more| - 1];
    }
  }

  lemma FlushUndone(maxBytes: int, h: Host, offers: seq<Event>)
    requires !Flushing(h) && forall e :: e in offers ==> e.Offer?
    ensures Step(maxBytes, After(maxBytes, Step(maxBytes, h, FlushBegin), offers), FlushFailed) == After(maxBytes, h, offers)
  {
    OffersWhileTaken(maxBytes, h, offers);
  }

  /** At any moment of any run, a flush that fails leaves the host as if it had not begun, whatever arrived
      meanwhile. */
  lemma FailedFlushIsUndone(maxBytes: int, events: seq<Event>, offers: seq<Event>)
    requires !Flushing(Run(maxBytes, events)) && forall e :: e in offers ==> e.Offer?
    ensures Run(maxBytes, events + [FlushBegin] + offers + [FlushFailed]) == Run(maxBytes, events + offers)
  {
    var begun, arrived := events + [FlushBegin], events + [FlushBegin] + offers;
    assert begun[..|events|] == events && (arrived + [FlushFailed])[..|arrived|] == arrived;
    RunAfter(maxBytes, begun, offers);
    RunAfter(maxBytes, events, offers);
    FlushUndone(maxBytes, Run(maxBytes, events), offers);
  }

  /** After the last flush succeeded nothing is left to append, and the row knows about the cut. */
  lemma FinalFlushStoresAll(maxBytes: nat, events: seq<Event>, toErr: bool)
    requires !Flushing(Run(maxBytes, events))
    ensures var es := events + [FlushBegin, FlushOk];
      var c := Of(Run(maxBytes, es), toErr);
      && c.inFlight.None? && c.buf.pending == []
      && Concat(Flushed(maxBytes, es, toErr)) == AcceptAll(maxBytes, Offered(events, toErr)).pending
      && c.row == RecodeAll(Flushed(maxBytes, es, toErr)) && |Encode(c.row)| <= maxBytes
      && c.rowTruncated == AcceptAll(maxBytes, Offered(events, toErr)).truncated
  {
    var es := events + [FlushBegin, FlushOk];
    LastTwo(events);
    LastFlush(maxBytes, events, toErr);
    RunTracks(maxBytes, events, toErr);
    RunTracks(maxBytes, es, toErr);
    CapIsExact(maxBytes, Offered(events, toErr));
    var c, flushed := Of(Run(maxBytes, es), toErr), Concat(Flushed(maxBytes, es, toErr));
    assert flushed + ([] + []) == flushed;
    EncodedSize(c.row);
  }

  lemma LastFlush(maxBytes: nat, events: seq<Event>, toErr: bool)
    requires !Flushing(Run(maxBytes, events))
    ensures var c, d := Of(Run(maxBytes, events), toErr), Of(Run(maxBytes, events + [FlushBegin, FlushOk]), toErr);
      d.inFlight.None? && d.buf == c.buf.(pending := []) && d.rowTruncated == (c.rowTruncated || (c.buf.truncated && !c.noted))
  {
    LastTwo(events);
  }

  lemma LastTwo(events: seq<Event>)
    ensures var es := events + [FlushBegin, FlushOk];
      es[..|es| - 1] == events + [FlushBegin] && (events + [FlushBegin])[..|events|] == events
    ensures forall toErr :: Offered(events + [FlushBegin, FlushOk], toErr) == Offered(events, toErr)
  {
    var es1, es := events + [FlushBegin], events + [FlushBegin, FlushOk];
    assert es[..|es| - 1] == es1 && es1[..|events|] == events;
    forall toErr
      ensures Offered(es, toErr) == Offered(events, toErr)
    {
      assert Offered(es1, toErr) == Offered(events, toErr) + [];
      assert Offered(es, toErr) == Offered(es1, toErr) + [];
    }
  }

  // ---- What separate appends do to halves of characters -------------------------

  /** No flush takes text that ends in a high half whose low half comes later. */
  ghost predicate NoPairCut(texts: seq<JsText>) {
    forall i :: 0 <= i < |texts| ==> !SplitsPair(texts[i], Concat(texts[i + 1..]))
  }

  lemma {:induction false} RecodeAllAt(texts: seq<JsText>)
    ensures |RecodeAll(texts)| == |Concat(texts)| && Resembles(RecodeAll(texts), Concat(texts))
    ensures WellFormed(RecodeAll(texts))
  {
    if texts != [] {
      RecodeAllAt(texts[1..]);
      RecodeAt(texts[0]);
      RecodedIsWellFormed(texts[0]);
      WellFormedConcat(Recode(texts[0]), RecodeAll(texts[1..]));
    }
  }

  /** The bytes that separate appends of the texts send, one after the other. */
  function BytesOf(texts: seq<JsText>): Bytes {
    if texts == [] then [] else Encode(texts[0]) + BytesOf(texts[1..])
  }

  /** The column holds just the bytes that were sent. */
  lemma {:induction false} ColumnBytes(texts: seq<JsText>)
    ensures Encode(RecodeAll(texts)) == BytesOf(texts)
  {
    if texts != [] {
      var first, rest := Recode(texts[0]), RecodeAll(texts[1..]);
      ColumnBytes(texts[1..]);
      RecodeAllAt(texts[1..]);
      RecodedIsWellFormed(texts[0]);
      WellFormedConcat(first, rest);
      EncodeConcatIff(first, rest);
      EncodeOfRecode(texts[0]);
    }
  }

  /** The database rejects NUL, and is never sent one. */
  lemma ColumnHasNoNul(maxBytes: int, events: seq<Event>, toErr: bool)
    ensures 0 !in Of(Run(maxBytes, events), toErr).row
  {
    var c, pieces, flushed := Of(Run(maxBytes, events), toErr), Offered(events, toErr), Flushed(maxBytes, events, toErr);
    var whole, kept, sent := CleanAll(pieces), AcceptAll(maxBytes, pieces).pending, Concat(flushed);
    RunTracks(maxBytes, events, toErr);
    KeptIsPrefixIff(maxBytes, pieces);
    CleanPieces(pieces);
    CleanAt(Concat(pieces));
    RecodeAllAt(flushed);
    forall i | 0 <= i < |c.row|
      ensures c.row[i] != 0
    {
      assert sent[i] == kept[i] && whole[i] in whole;
    }
  }

  lemma NoPairCutStep(texts: seq<JsText>)
    requires texts != []
    ensures NoPairCut(texts) <==> !SplitsPair(texts[0], Concat(texts[1..])) && NoPairCut(texts[1..])
  {
    var rest := texts[1..];
    assert forall i :: 0 <= i < |rest| ==> rest[i] == texts[i + 1] && rest[i + 1..] == texts[i + 2..];
    if NoPairCut(texts) {
      forall i | 0 <= i < |rest|
        ensures !SplitsPair(rest[i], Concat(rest[i + 1..]))
      {
        assert !SplitsPair(texts[i + 1], Concat(texts[i + 2..]));
      }
    }
    if !SplitsPair(texts[0], Concat(rest)) && NoPairCut(rest) {
      forall i | 0 <= i < |texts|
        ensures !SplitsPair(texts[i], Concat(texts[i + 1..]))
      {
        if i > 0 { assert !SplitsPair(rest[i - 1], Concat(rest[i..])); }
      }
    }
  }

  /** Appending texts one by one stores what appending them at once would, exactly when no flush
      cuts a pair. */
  lemma {:induction false} AppendedApartIff(texts: seq<JsText>)
    ensures RecodeAll(texts) == Recode(Concat(texts)) <==> NoPairCut(texts)
  {
    if texts != [] {
      var first, rest := texts[0], texts[1..];
      var more, stored := Concat(rest), RecodeAll(rest);
      AppendedApartIff(rest);
      NoPairCutStep(texts);
      RecodeConcatIff(first, more);
      RecodeAllAt(rest);
      RecodeAt(more);
      if SplitsPair(first, more) {
        HalvesDiffer(first, more, stored);
      } else {
        SameTail(Recode(first), stored, Recode(more));
      }
    }
  }

  lemma SameTail(a: JsText, x: JsText, y: JsText)
    ensures a + x == a + y <==> x == y
  {
    if a + x == a + y {
      assert (a + x)[|a|..] == x && (a + y)[|a|..] == y;
    }
  }

  lemma HalvesDiffer(first: JsText, more: JsText, stored: JsText)
    requires SplitsPair(first, more)
    ensures Recode(first) + stored != Recode(first + more)
  {
    var n := |first| - 1;
    RecodeAt(first);
    RecodeAt(first + more);
    assert LoneAt(first, n) && !LoneAt(first + more, n);
    assert (Recode(first) + stored)[n] == REPLACEMENT;
  }

  /** The column is the text itself exactly when that text holds no lone half and no flush cuts
      a pair of it. */
  lemma ColumnIsTextIff(texts: seq<JsText>)
    ensures RecodeAll(texts) == Concat(texts) <==> WellFormed(Concat(texts)) && NoPairCut(texts)
  {
    RecodeAllAt(texts);
    AppendedApartIff(texts);
    if WellFormed(Concat(texts)) {
      RecodeOfWellFormed(Concat(texts));
    }
  }

  /** Two replacements in a row give a prefix only if neither replaced anything. */
  lemma PrefixThrough(row: JsText, kept: JsText, whole: JsText)
    requires |row| == |kept| && Resembles(row, kept) && Resembles(kept, whole)
    ensures IsPrefix(row, whole) <==> row == kept && IsPrefix(kept, whole)
  {
    if IsPrefix(row, whole) {
      forall i | 0 <= i < |row|
        ensures row[i] == kept[i] == whole[i]
      {
        assert whole[..|row|][i] == row[i];
      }
      assert kept == row;
    }
  }

  // ---- From the transport to the row --------------------------------------------

  /** What the masker lets through for each chunk, and for the end of the stream. */
  function Pieces(values: seq<JsText>, pending: JsText, chunks: seq<JsText>): seq<JsText>
    decreases |chunks|
  {
    if chunks == [] then [MaskAll(values, pending)]
    else [PushOut(values, pending, chunks[0])] + Pieces(values, PushRest(values, pending, chunks[0]), chunks[1..])
  }

  lemma {:induction false} PiecesAreTheStream(values: seq<JsText>, pending: JsText, chunks: seq<JsText>)
    ensures Concat(Pieces(values, pending, chunks)) == Stream(values, pending, chunks)
    decreases |chunks|
  {
    if chunks == [] {
      assert Concat([MaskAll(values, pending)]) == MaskAll(values, pending) + [];
    } else {
      PiecesAreTheStream(values, PushRest(values, pending, chunks[0]), chunks[1..]);
      assert Pieces(values, pending, chunks)[1..] == Pieces(values, PushRest(values, pending, chunks[0]), chunks[1..]);
    }
  }

  lemma {:induction false} CleanConcat(a: JsText, b: JsText)
    ensures Clean(a + b) == Clean(a) + Clean(b)
  {
    if a == [] {
      assert a + b == b;
    } else {
      var whole := a + b;
      assert whole[0] == a[0] && whole[1..] == a[1..] + b;
      CleanConcat(a[1..], b);
      Text.Regroup([if a[0] == 0 then REPLACEMENT else a[0]], Clean(a[1..]), Clean(b));
    }
  }

  lemma {:induction false} CleanPieces(pieces: seq<JsText>)
    ensures CleanAll(pieces) == Clean(Concat(pieces))
  {
    if pieces != [] {
      var init, last := pieces[..|pieces| - 1], pieces[|pieces| - 1];
      CleanPieces(init);
      ConcatAppend(init, last);
      assert pieces == init + [last];
      CleanConcat(Concat(init), last);
    }
  }

  lemma {:induction false} ConcatOfBoth(a: seq<JsText>, b: seq<JsText>)
    ensures Concat(a + b) == Concat(a) + Concat(b)
  {
    if a == [] {
      assert a + b == b && Concat(a) + Concat(b) == Concat(b);
    } else {
      assert (a + b)[0] == a[0] && (a + b)[1..] == a[1..] + b;
      ConcatOfBoth(a[1..], b);
      Text.Regroup(a[0], Concat(a[1..]), Concat(b));
    }
  }

  /** All that is offered: what the masker makes of the host's output, then the program's notes. */
  lemma OfferedText(values: seq<JsText>, chunks: seq<JsText>, notes: seq<JsText>, pieces: seq<JsText>)
    requires pieces == Pieces(values, [], chunks) + notes
    ensures CleanAll(pieces) == Clean(Stream(values, [], chunks) + Concat(notes))
  {
    CleanPieces(pieces);
    ConcatOfBoth(Pieces(values, [], chunks), notes);
    PiecesAreTheStream(values, [], chunks);
  }

  /** Once a host's stream has ended and been flushed, its column holds the leftmost-longest masking
      of everything the host printed, followed by the program's notes if there are any, or, past the
      cap, a prefix of that, exactly when no lone half is kept, by the cut or at all, and no flush cut
      a pair; and never more than `maxBytes` bytes. */
  lemma StoredOutputIsMasked(
    maxBytes: nat, values: seq<JsText>, chunks: seq<JsText>, regions: seq<Region>, notes: seq<JsText>, events: seq<Event>, toErr: bool)
    requires LeftmostLongest(values, Concat(chunks), 0, regions)
    requires Offered(events, toErr) == Pieces(values, [], chunks) + notes && !Flushing(Run(maxBytes, events))
    ensures Ordered(0, regions, |Concat(chunks)|)
    ensures var es, masked := events + [FlushBegin, FlushOk], Clean(Render(Concat(chunks), 0, regions) + Concat(notes));
      var c, pieces, flushed := Of(Run(maxBytes, es), toErr), Offered(events, toErr), Flushed(maxBytes, es, toErr);
      && |Encode(c.row)| <= maxBytes
      && CleanAll(pieces) == masked
      && (c.rowTruncated <==> |Encode(masked)| + 2 * PairsSplit(pieces) > maxBytes)
      && (!c.rowTruncated ==> (c.row == masked <==> WellFormed(masked) && NoPairCut(flushed)))
      && (IsPrefix(c.row, masked) <==>
           CutInWhole(maxBytes, pieces) && WellFormed(AcceptAll(maxBytes, pieces).pending) && NoPairCut(flushed))
  {
    StreamedMasking(values, chunks, regions);
    OfferedText(values, chunks, notes, Offered(events, toErr));
    StoredIsOffered(maxBytes, events, toErr);
  }

  /** The same of any pieces, masked or not. */
  lemma StoredIsOffered(maxBytes: nat, events: seq<Event>, toErr: bool)
    requires !Flushing(Run(maxBytes, events))
    ensures var es, pieces := events + [FlushBegin, FlushOk], Offered(events, toErr);
      var c, flushed, whole := Of(Run(maxBytes, es), toErr), Flushed(maxBytes, es, toErr), CleanAll(pieces);
      && |Encode(c.row)| <= maxBytes
      && (c.rowTruncated <==> |Encode(whole)| + 2 * PairsSplit(pieces) > maxBytes)
      && (!c.rowTruncated ==> (c.row == whole <==> WellFormed(whole) && NoPairCut(flushed)))
      && (IsPrefix(c.row, whole) <==>
           CutInWhole(maxBytes, pieces) && WellFormed(AcceptAll(maxBytes, pieces).pending) && NoPairCut(flushed))
  {
    var pieces, es := Offered(events, toErr), events + [FlushBegin, FlushOk];
    var flushed := Flushed(maxBytes, es, toErr);
    FinalFlushStoresAll(maxBytes, events, toErr);
    CapIsExact(maxBytes, pieces);
    ColumnIsTextIff(flushed);
    KeptIsPrefixIff(maxBytes, pieces);
    RecodeAllAt(flushed);
    PrefixThrough(RecodeAll(flushed), Concat(flushed), CleanAll(pieces));
  }

  // ---- The common case: whole characters ------------------------------------------

  ghost predicate AllWhole(texts: seq<JsText>) {
    forall t :: t in texts ==> WellFormed(t)
  }

  lemma {:induction false} StripKeepsWellFormed(s: JsText, r: JsText)
    requires WellFormed(s) && |r| <= |s| && r == s[..|r|] && forall i :: |r| <= i < |s| ==> s[i] == REPLACEMENT
    ensures WellFormed(r)
    decreases |s|
  {
    if r != [] {
      var n := FirstUnits(s);
      if n == 2 { assert s[1] != REPLACEMENT; }
      assert r[n..] == s[n..][..|r| - n];
      StripKeepsWellFormed(s[n..], r[n..]);
    }
  }

  lemma TakenIsWhole(maxBytes: int, buf: Buf, text: JsText)
    requires WellFormed(text)
    ensures WellFormed(Taken(maxBytes, buf, text))
  {
    CleanKeepsWellFormed(text);
    var room, clean := maxBytes - buf.bytes, Clean(text);
    FitOfWellFormed(clean, room);
    RecodeOfWellFormed(Fit(clean, room));
    if room > 0 && !buf.truncated && ByteLength(clean) > room {
      TruncateIsFit(clean, room);
      StripIsPrefix(Fit(clean, room), StripReplacements(Fit(clean, room)));
      StripKeepsWellFormed(Fit(clean, room), StripReplacements(Fit(clean, room)));
    }
  }

  /** If all pieces are made of whole characters, so are all texts in the stream's state and history. */
  lemma {:induction false} RunKeepsWhole(maxBytes: int, events: seq<Event>, toErr: bool)
    requires AllWhole(Offered(events, toErr))
    ensures var c := Of(Run(maxBytes, events), toErr);
      AllWhole(Flushed(maxBytes, events, toErr)) && WellFormed(InFlight(c)) && WellFormed(c.buf.pending)
  {
    if events != [] {
      var init, e := events[..|events| - 1], events[|events| - 1];
      RunKeepsWhole(maxBytes, init, toErr);
      var c := Of(Run(maxBytes, init), toErr);
      if e.Offer? && e.toErr == toErr {
        assert e.text in Offered(events, toErr);
        AcceptKeepsWhole(maxBytes, c.buf, e.text);
      }
      WellFormedConcat(InFlight(c), c.buf.pending);
    }
  }

  lemma AcceptKeepsWhole(maxBytes: int, buf: Buf, text: JsText)
    requires WellFormed(buf.pending) && WellFormed(text)
    ensures WellFormed(Accept(maxBytes, buf, text).pending)
  {
    TakenIsWhole(maxBytes, buf, text);
    WellFormedConcat(buf.pending, Taken(maxBytes, buf, text));
  }

  lemma {:induction false} WholeTexts(texts: seq<JsText>)
    requires AllWhole(texts)
    ensures RecodeAll(texts) == Concat(texts)
  {
    if texts != [] {
      RecodeOfWellFormed(texts[0]);
      WholeTexts(texts[1..]);
    }
  }

  /** When no piece carries half a character, the column is a prefix of what was offered, however
      the flushes fall, and all of it exactly when it fits. */
  lemma WholeOutputIsStored(maxBytes: nat, events: seq<Event>, toErr: bool)
    requires AllWhole(Offered(events, toErr)) && !Flushing(Run(maxBytes, events))
    ensures var c, whole := Of(Run(maxBytes, events + [FlushBegin, FlushOk]), toErr), CleanAll(Offered(events, toErr));
      && IsPrefix(c.row, whole)
      && (c.rowTruncated <==> |Encode(whole)| > maxBytes)
      && (!c.rowTruncated ==> c.row == whole)
  {
    var es, pieces := events + [FlushBegin, FlushOk], Offered(events, toErr);
    LastTwo(events);
    FinalFlushStoresAll(maxBytes, events, toErr);
    RunKeepsWhole(maxBytes, es, toErr);
    WholeTexts(Flushed(maxBytes, es, toErr));
    KeptIsPrefix(maxBytes, pieces);
    CapIsExact(maxBytes, pieces);
  }

  // ---- The objects ------------------------------------------------------------

  class StreamBuffer {
    const masker: SecretMasker
    const maxBytes: int
    var pending: JsText
    var bytes: int
    var truncated: bool

    ghost predicate Valid()
      reads this, masker
    {
      masker.Valid()
    }

    function State(): Buf
      reads this
    {
      Buf(pending, bytes, truncated)
    }

    constructor (masker: SecretMasker, maxBytes: int)
      requires masker.Valid()
      ensures this.masker == masker && this.maxBytes == maxBytes && Valid() && State() == EMPTY_BUF
    {
      this.masker, this.maxBytes := masker, maxBytes;
      pending, bytes, truncated := [], 0, false;
    }

    method Push(chunk: JsText)
      requires Valid()
      modifies this, masker
      ensures Valid()
      ensures State() == Accept(maxBytes, old(State()), PushOut(masker.values, old(masker.pending), chunk))
      ensures masker.pending == PushRest(masker.values, old(masker.pending), chunk)
    {
      var text := masker.Push(chunk);
      AcceptText(text);
    }

    method End()
      requires Valid()
      modifies this, masker
      ensures Valid()
      ensures State() == Accept(maxBytes, old(State()), MaskAll(masker.values, old(masker.pending)))
      ensures masker.pending == []
    {
      var text := masker.Flush();
      AcceptText(text);
    }

    /** The program's own notes, which bypass the masker but not what it still holds. */
    method Note(text: JsText)
      requires Valid()
      modifies this, masker
      ensures Valid()
      ensures State() == Accept(maxBytes, old(State()), MaskAll(masker.values, old(masker.pending)) + text)
      ensures masker.pending == []
    {
      var held := masker.Flush();
      AcceptText(held + text);
    }

    method AcceptText(text: JsText)
      modifies this
      ensures State() == Accept(maxBytes, old(State()), text)
    {
      if text == [] {
        return;
      }
      var clean := Clean(text);
      if truncated {
        return;
      }
      var room := maxBytes - bytes;
      var len := ByteLength(clean);
      if len <= room {
        pending := pending + clean;
        bytes := bytes + len;
        return;
      }
      var cut := TruncateUtf8(clean, room);
      pending := pending + cut;
      bytes := bytes + ByteLength(cut);
      truncated := true;
    }

    method Take() returns (out: JsText)
      modifies this`pending
      ensures out == old(pending) && pending == []
    {
      out := pending;
      pending := [];
    }
  }

  /** The two buffers of a host and its row. A flush is two steps, since the append is awaited. */
  class HostOutput {
    const out: StreamBuffer
    const err: StreamBuffer
    var flushedTruncOut: bool
    var flushedTruncErr: bool
    var inFlight: Option<(Taking, Taking)>
    var stdout: JsText
    var stderr: JsText
    var stdoutTruncated: bool
    var stderrTruncated: bool

    ghost predicate Valid()
      reads this, out, err
    {
      out != err && out.maxBytes == err.maxBytes
    }

    function State(): Host
      reads this, out, err
    {
      Host(Channel(out.State(), if inFlight.Some? then Some(inFlight.value.0) else None, stdout, stdoutTruncated, flushedTruncOut),
           Channel(err.State(), if inFlight.Some? then Some(inFlight.value.1) else None, stderr, stderrTruncated, flushedTruncErr))
    }

    constructor (out: StreamBuffer, err: StreamBuffer)
      requires out != err && out.maxBytes == err.maxBytes
      ensures this.out == out && this.err == err && Valid()
      ensures State() == Host(NEW_CHANNEL.(buf := out.State()), NEW_CHANNEL.(buf := err.State()))
    {
      this.out, this.err := out, err;
      flushedTruncOut, flushedTruncErr, inFlight := false, false, None;
      stdout, stderr, stdoutTruncated, stderrTruncated := [], [], false, false;
    }

    method FlushBegin()
      requires Valid() && inFlight.None?
      modifies this, out, err
      ensures Valid() && State() == Step(out.maxBytes, old(State()), Event.FlushBegin)
    {
      var o := out.Take();
      var e := err.Take();
      var truncOut := out.truncated && !flushedTruncOut;
      var truncErr := err.truncated && !flushedTruncErr;
      if o == [] && e == [] && !truncOut && !truncErr {
        return;
      }
      inFlight := Some((Taking(o, truncOut), Taking(e, truncErr)));
    }

    /** The append committed. */
    method FlushCommitted()
      requires Valid() && inFlight.Some?
      modifies this
      ensures Valid() && State() == Step(out.maxBytes, old(State()), FlushOk)
    {
      var (o, e) := inFlight.value;
      stdout, stderr := stdout + Recode(o.text), stderr + Recode(e.text);
      stdoutTruncated, stderrTruncated := stdoutTruncated || o.trunc, stderrTruncated || e.trunc;
      if o.trunc { flushedTruncOut := true; }
      if e.trunc { flushedTruncErr := true; }
      inFlight := None;
    }

    /** The append failed: put the text back in front of what arrived meanwhile. */
    method FlushRejected()
      requires Valid() && inFlight.Some?
      modifies this, out, err
      ensures Valid() && State() == Step(out.maxBytes, old(State()), FlushFailed)
    {
      var (o, e) := inFlight.value;
      out.pending := o.text + out.pending;
      err.pending := e.text + err.pending;
      inFlight := None;
    }
  }
}
