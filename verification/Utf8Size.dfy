/** UTF-8 sizes of JavaScript strings, and cuts that keep to a size in bytes: surrogate pairs
    take four bytes, and a lone surrogate is encoded as U+FFFD, three bytes. */
module Utf8Size {
  import opened Utf16
  import opened Utf8
  import Text

  function FirstBytes(s: JsText): (n: nat)
    requires s != []
    ensures 0 < n <= 4
  {
    if StartsWithPair(s) then 4 else if s[0] < 0x80 then 1 else if s[0] < 0x800 then 2 else 3
  }

  /** `Buffer.byteLength(s, "utf8")`. */
  function ByteLength(s: JsText): nat {
    if s == [] then 0 else FirstBytes(s) + ByteLength(s[FirstUnits(s)..])
  }

  /** Does cutting a text into `a` and `b` separate the two halves of a pair? */
  predicate SplitsPair(a: JsText, b: JsText) {
    a != [] && b != [] && IsHigh(a[|a| - 1]) && IsLow(b[0])
  }

  /** Counting two pieces separately agrees with counting them together unless the cut
      is inside a surrogate pair; then it is exactly two bytes more. */
  lemma {:induction false} ByteLengthConcat(a: JsText, b: JsText)
    ensures ByteLength(a) + ByteLength(b) == ByteLength(a + b) + if SplitsPair(a, b) then 2 else 0
    decreases |a|
  {
    if a == [] {
      assert a + b == b;
    } else if |a| == 1 && SplitsPair(a, b) {
      assert (a + b)[2..] == b[1..];
      assert a[1..] == [];
    } else {
      var n := FirstUnits(a);
      assert FirstUnits(a + b) == n && FirstBytes(a + b) == FirstBytes(a);
      assert (a + b)[n..] == a[n..] + b;
      ByteLengthConcat(a[n..], b);
      if n == |a| && b != [] && IsLow(b[0]) && IsHigh(a[|a| - 1]) {
        assert false;
      }
    }
  }

  /** Every surrogate is part of a pair. */
  predicate WellFormed(s: JsText)
    decreases |s|
  {
    s == [] || ((StartsWithPair(s) || (!IsHigh(s[0]) && !IsLow(s[0]))) && WellFormed(s[FirstUnits(s)..]))
  }

  /** Encoding to UTF-8 and decoding again: lone surrogates become U+FFFD. */
  function Recode(s: JsText): JsText
    decreases |s|
  {
    if s == [] then []
    else if StartsWithPair(s) then s[..2] + Recode(s[2..])
    else [if IsHigh(s[0]) || IsLow(s[0]) then REPLACEMENT else s[0]] + Recode(s[1..])
  }

  lemma {:induction false} RecodeOfWellFormed(s: JsText)
    requires WellFormed(s)
    ensures Recode(s) == s
    decreases |s|
  {
    if s != [] {
      RecodeOfWellFormed(s[FirstUnits(s)..]);
      assert s == s[..FirstUnits(s)] + s[FirstUnits(s)..];
    }
  }

  /** Is the unit at `i` half of a pair without its other half? */
  predicate LoneAt(s: JsText, i: nat)
    requires i < |s|
  {
    || (IsHigh(s[i]) && (i + 1 == |s| || !IsLow(s[i + 1])))
    || (IsLow(s[i]) && (i == 0 || !IsHigh(s[i - 1])))
  }

  /** The first `k` units of `s` hold no lone half. */
  predicate NoneLone(s: JsText, k: nat)
    requires k <= |s|
  {
    forall i :: 0 <= i < k ==> !LoneAt(s, i)
  }

  /** Recoding replaces the lone halves and nothing else. */
  lemma {:induction false} RecodeAt(s: JsText)
    ensures |Recode(s)| == |s|
    ensures forall i :: 0 <= i < |s| ==> Recode(s)[i] == if LoneAt(s, i) then REPLACEMENT else s[i]
    decreases |s|
  {
    if s != [] {
      var n := FirstUnits(s);
      var rest := s[n..];
      RecodeAt(rest);
      var head := RecodeStep(s, n, rest);
      assert forall i :: 0 <= i < n ==> (head + Recode(rest))[i] == head[i];
      forall i | n <= i < |s|
        ensures (head + Recode(rest))[i] == if LoneAt(s, i) then REPLACEMENT else s[i]
      {
        LoneInRest(s, n, rest, i);
      }
    }
  }

  lemma RecodeStep(s: JsText, n: nat, rest: JsText) returns (head: JsText)
    requires s != [] && n == FirstUnits(s) && rest == s[n..]
    ensures |head| == n && Recode(s) == head + Recode(rest)
    ensures forall i :: 0 <= i < n ==> head[i] == if LoneAt(s, i) then REPLACEMENT else s[i]
  {
    head := if n == 2 then s[..2] else [if IsHigh(s[0]) || IsLow(s[0]) then REPLACEMENT else s[0]];
  }

  lemma LoneInRest(s: JsText, n: nat, rest: JsText, i: nat)
    requires s != [] && n == FirstUnits(s) && rest == s[n..] && n <= i < |s|
    ensures LoneAt(rest, i - n) == LoneAt(s, i) && rest[i - n] == s[i]
  {}

  lemma {:induction false} RecodedIsWellFormed(s: JsText)
    ensures WellFormed(Recode(s))
    decreases |s|
  {
    if s != [] {
      var n := FirstUnits(s);
      RecodedIsWellFormed(s[n..]);
      var r := Recode(s);
      assert r[n..] == Recode(s[n..]);
      assert StartsWithPair(s) ==> r[0] == s[0] && r[1] == s[1];
    }
  }

  /** Recoding two texts apart is recoding them together unless the cut splits a pair. */
  lemma RecodeConcatIff(a: JsText, b: JsText)
    ensures Recode(a + b) == Recode(a) + Recode(b) <==> !SplitsPair(a, b)
  {
    var whole, apart := Recode(a + b), Recode(a) + Recode(b);
    RecodeAt(a);
    RecodeAt(b);
    RecodeAt(a + b);
    if SplitsPair(a, b) {
      assert LoneAt(a, |a| - 1) && !LoneAt(a + b, |a| - 1);
      assert whole[|a| - 1] != apart[|a| - 1];
    } else {
      forall i | 0 <= i < |whole|
        ensures whole[i] == apart[i]
      {
        assert LoneAt(a + b, i) == if i < |a| then LoneAt(a, i) else LoneAt(b, i - |a|);
      }
    }
  }

  /** The size is that of the encoding. */
  lemma {:induction false} EncodedSize(s: JsText)
    ensures |Encode(s)| == ByteLength(s)
    decreases |s|
  {
    if s != [] {
      EncodedSize(s[FirstUnits(s)..]);
    }
  }

  /** Recoding is encoding and decoding again. */
  lemma {:induction false} DecodeOfEncode(s: JsText)
    ensures Decode(Encode(s)) == Recode(s)
    decreases |s|
  {
    if s != [] {
      var rest := s[FirstUnits(s)..];
      DecodeOfEncode(rest);
      DecodeOfChar(FirstChar(s), EncodeChar(FirstChar(s)), Encode(rest));
      UnitsOfFirst(s);
    }
  }

  /** Encoding two texts apart is encoding them together unless the cut splits a pair. */
  lemma {:induction false} EncodeConcatIff(a: JsText, b: JsText)
    ensures Encode(a + b) == Encode(a) + Encode(b) <==> !SplitsPair(a, b)
  {
    if SplitsPair(a, b) {
      ByteLengthConcat(a, b);
      EncodedSize(a);
      EncodedSize(b);
      EncodedSize(a + b);
    } else {
      EncodeConcat(a, b);
    }
  }

  lemma {:induction false} EncodeConcat(a: JsText, b: JsText)
    requires !SplitsPair(a, b)
    ensures Encode(a + b) == Encode(a) + Encode(b)
    decreases |a|
  {
    if a == [] {
      assert a + b == b;
    } else {
      var n := FirstUnits(a);
      assert FirstUnits(a + b) == n && FirstChar(a + b) == FirstChar(a);
      assert (a + b)[n..] == a[n..] + b;
      assert n < |a| ==> a[n..][|a| - n - 1] == a[|a| - 1];
      EncodeConcat(a[n..], b);
      Text.Regroup(EncodeChar(FirstChar(a)), Encode(a[n..]), Encode(b));
    }
  }

  /** What is decoded again has the bytes it was decoded from. */
  lemma {:induction false} EncodeOfRecode(s: JsText)
    ensures Encode(Recode(s)) == Encode(s)
    decreases |s|
  {
    if s != [] {
      var n := FirstUnits(s);
      EncodeOfRecode(s[n..]);
      RecodeKeepsLength(s[n..]);
      var r := Recode(s);
      assert r[n..] == Recode(s[n..]);
      assert StartsWithPair(r) == StartsWithPair(s) && FirstChar(r) == FirstChar(s);
    }
  }

  /** The whole characters at the start of `s` that fit in `room` bytes. */
  function Fit(s: JsText, room: int): JsText
    decreases |s|
  {
    if s == [] || FirstBytes(s) > room then []
    else s[..FirstUnits(s)] + Fit(s[FirstUnits(s)..], room - FirstBytes(s))
  }

  lemma {:induction false} FitIsPrefix(s: JsText, room: int)
    ensures IsPrefix(Fit(s, room), s)
    decreases |s|
  {
    if s != [] && FirstBytes(s) <= room {
      var n := FirstUnits(s);
      var rest := Fit(s[n..], room - FirstBytes(s));
      FitIsPrefix(s[n..], room - FirstBytes(s));
      assert s[..n] + s[n..][..|rest|] == s[..n + |rest|];
    }
  }

  lemma {:induction false} FitFits(s: JsText, room: nat)
    ensures ByteLength(Fit(s, room)) <= room
    decreases |s|
  {
    if s != [] && FirstBytes(s) <= room {
      var n := FirstUnits(s);
      FitFits(s[n..], room - FirstBytes(s));
      var p := Fit(s, room);
      assert p[n..] == Fit(s[n..], room - FirstBytes(s)) && FirstUnits(p) == n && FirstBytes(p) == FirstBytes(s);
    }
  }

  lemma CutOfRest(s: JsText, n: nat, k: nat)
    requires n <= k <= |s|
    ensures s[n..][..k - n] == s[..k][n..] && s[n..][k - n..] == s[k..]
  {}

  /** A cut after the first character starts with it. */
  lemma CutStartsAlike(s: JsText, k: nat)
    requires s != [] && 0 < k <= |s| && !SplitsPair(s[..k], s[k..])
    ensures FirstUnits(s) <= k && FirstUnits(s[..k]) == FirstUnits(s) && FirstBytes(s[..k]) == FirstBytes(s)
  {}

  /** No longer cut between characters fits. */
  lemma {:induction false} FitIsLongest(s: JsText, room: nat, k: nat)
    requires k <= |s| && !SplitsPair(s[..k], s[k..]) && ByteLength(s[..k]) <= room
    ensures k <= |Fit(s, room)|
    decreases |s|
  {
    if k > 0 {
      CutStartsAlike(s, k);
      var n, q := FirstUnits(s), s[..k];
      CutOfRest(s, n, k);
      assert k > n ==> q[n..][|q[n..]| - 1] == q[|q| - 1];
      FitIsLongest(s[n..], room - FirstBytes(s), k - n);
    }
  }

  lemma {:induction false} FitOfWellFormed(s: JsText, room: int)
    requires WellFormed(s)
    ensures WellFormed(Fit(s, room))
    decreases |s|
  {
    if s != [] && FirstBytes(s) <= room {
      var n := FirstUnits(s);
      FitOfWellFormed(s[n..], room - FirstBytes(s));
      var p := Fit(s, room);
      assert p[n..] == Fit(s[n..], room - FirstBytes(s));
      assert StartsWithPair(p) == StartsWithPair(s);
    }
  }

  /** Trailing replacement characters removed. */
  function StripReplacements(s: JsText): JsText {
    if s != [] && s[|s| - 1] == REPLACEMENT then StripReplacements(s[..|s| - 1]) else s
  }

  lemma {:induction false} StripIsPrefix(s: JsText, r: JsText)
    requires r == StripReplacements(s)
    ensures IsPrefix(r, s) && (r != [] ==> r[|r| - 1] != REPLACEMENT)
    ensures forall i :: |r| <= i < |s| ==> s[i] == REPLACEMENT
  {
    if s != [] && s[|s| - 1] == REPLACEMENT {
      StripIsPrefix(s[..|s| - 1], r);
    }
  }

  /** Cut to at most `maxBytes` of UTF-8: the bytes that fit are decoded, and replacement
      characters at the end go, with those that a broken character decodes to. */
  function TruncateUtf8(s: JsText, maxBytes: int): JsText {
    if maxBytes <= 0 then []
    else if |Encode(s)| <= maxBytes then s
    else StripReplacements(Decode(Encode(s)[..maxBytes]))
  }

  lemma StripDropsLast(s: JsText)
    ensures StripReplacements(s + [REPLACEMENT]) == StripReplacements(s)
  {
    assert (s + [REPLACEMENT])[..|s|] == s;
  }

  lemma FirstSize(s: JsText)
    requires s != []
    ensures |EncodeChar(FirstChar(s))| == FirstBytes(s)
  {}

  /** The first `room` bytes of an encoding hold the characters that fit, and possibly a broken one. */
  lemma {:induction false} DecodeOfCut(s: JsText, room: nat) returns (broken: JsText)
    requires room <= |Encode(s)|
    ensures broken == [] || broken == [REPLACEMENT]
    ensures Decode(Encode(s)[..room]) == Recode(Fit(s, room)) + broken
    decreases |s|
  {
    broken := [];
    if s != [] {
      var n, c := FirstUnits(s), FirstChar(s);
      var head, tail := EncodeChar(c), Encode(s[n..]);
      FirstSize(s);
      if FirstBytes(s) <= room {
        broken := DecodeOfCut(s[n..], room - |head|);
        RecodeOfFit(s, room, n);
        CutAfterFirst(c, head, tail, room, Recode(Fit(s[n..], room - |head|)) + broken);
        Text.Regroup(Units(c), Recode(Fit(s[n..], room - |head|)), broken);
      } else {
        assert (head + tail)[..room] == head[..room];
        if room > 0 {
          DecodeOfPart(c, head, room);
          broken := [REPLACEMENT];
        }
      }
    }
  }

  lemma CutAfterFirst(c: nat, head: Bytes, tail: Bytes, room: nat, rest: JsText)
    requires IsScalar(c) && head == EncodeChar(c) && |head| <= room <= |head| + |tail|
    requires Decode(tail[..room - |head|]) == rest
    ensures Decode((head + tail)[..room]) == Units(c) + rest
  {
    assert (head + tail)[..room] == head + tail[..room - |head|];
    DecodeOfChar(c, head, tail[..room - |head|]);
  }

  lemma RecodeOfFit(s: JsText, room: nat, n: nat)
    requires s != [] && n == FirstUnits(s) && FirstBytes(s) <= room
    ensures Recode(Fit(s, room)) == Units(FirstChar(s)) + Recode(Fit(s[n..], room - FirstBytes(s)))
  {
    UnitsOfFirst(s);
    var f := Fit(s, room);
    assert f[n..] == Fit(s[n..], room - FirstBytes(s));
    assert StartsWithPair(f) == StartsWithPair(s);
  }

  /** What a cut keeps: the whole characters that fit, recoded, without replacement characters at the end. */
  lemma TruncateIsFit(s: JsText, room: nat)
    requires ByteLength(s) > room
    ensures TruncateUtf8(s, room) == StripReplacements(Recode(Fit(s, room)))
  {
    EncodedSize(s);
    var broken := DecodeOfCut(s, room);
    StripDropsLast(Recode(Fit(s, room)));
    assert Recode(Fit(s, room)) + [] == Recode(Fit(s, room));
  }

  lemma {:induction false} FitEndsWhole(s: JsText, room: int)
    ensures IsPrefix(Fit(s, room), s) && !SplitsPair(Fit(s, room), s[|Fit(s, room)|..])
    decreases |s|
  {
    if s != [] && FirstBytes(s) <= room {
      var n := FirstUnits(s);
      var rest := Fit(s[n..], room - FirstBytes(s));
      FitEndsWhole(s[n..], room - FirstBytes(s));
      FitIsPrefix(s[n..], room - FirstBytes(s));
      CutOfRest(s, n, n + |rest|);
      assert Fit(s, room) == s[..n] + rest;
    }
  }

  lemma LoneInPrefix(s: JsText, p: JsText, i: nat)
    requires i < |p| && IsPrefix(p, s) && !SplitsPair(p, s[|p|..])
    ensures LoneAt(p, i) == LoneAt(s, i) && p[i] == s[i]
  {
    assert p[i] == s[..|p|][i];
    assert i + 1 < |p| ==> p[i + 1] == s[..|p|][i + 1];
    assert i > 0 ==> p[i - 1] == s[..|p|][i - 1];
  }

  /** What is kept of a text that does not fit is that text unit by unit, with its lone
      halves replaced. */
  lemma CutAt(s: JsText, room: int)
    requires ByteLength(s) > room
    ensures var kept := TruncateUtf8(s, room);
      && |kept| <= |s|
      && forall i :: 0 <= i < |kept| ==> kept[i] == if LoneAt(s, i) then REPLACEMENT else s[i]
  {
    if room > 0 {
      var f := Fit(s, room);
      TruncateIsFit(s, room);
      FitEndsWhole(s, room);
      RecodeAt(f);
      StripIsPrefix(Recode(f), TruncateUtf8(s, room));
      forall i | 0 <= i < |f|
        ensures LoneAt(f, i) == LoneAt(s, i) && f[i] == s[i]
      {
        LoneInPrefix(s, f, i);
      }
    }
  }

  /** No lone half in the part of `s` that is kept. */
  predicate KeepsWhole(s: JsText, room: int) {
    |TruncateUtf8(s, room)| <= |s| && NoneLone(s, |TruncateUtf8(s, room)|)
  }

  /** What is kept is a prefix exactly when no lone half was replaced in it. */
  lemma CutIsPrefixIff(s: JsText, room: int)
    requires ByteLength(s) > room
    ensures IsPrefix(TruncateUtf8(s, room), s) <==> KeepsWhole(s, room)
  {
    CutAt(s, room);
    var kept := TruncateUtf8(s, room);
    if IsPrefix(kept, s) {
      forall i | 0 <= i < |kept|
        ensures !LoneAt(s, i)
      {
        assert s[..|kept|][i] == s[i];
      }
    }
  }

  lemma {:induction false} PrefixNoLonger(s: JsText, k: nat)
    requires k <= |s| && (k < |s| ==> s[k] == REPLACEMENT)
    ensures ByteLength(s[..k]) <= ByteLength(s)
  {
    assert s == s[..k] + s[k..];
    ByteLengthConcat(s[..k], s[k..]);
  }

  lemma {:induction false} RecodeKeepsLength(s: JsText)
    ensures ByteLength(Recode(s)) == ByteLength(s)
    ensures Recode(s) != [] ==> !IsLow(Recode(s)[0])
    decreases |s|
  {
    if s != [] {
      var n := FirstUnits(s);
      RecodeKeepsLength(s[n..]);
      var r, tail := Recode(s), Recode(s[n..]);
      assert r[n..] == tail;
      assert StartsWithPair(r) == StartsWithPair(s);
    }
  }

  /** What is kept fits, and is everything exactly when everything fits. */
  lemma TruncateFits(s: JsText, room: int)
    ensures |Encode(TruncateUtf8(s, room))| <= if room <= 0 then 0 else room
    ensures TruncateUtf8(s, room) == s <==> |Encode(s)| <= if room <= 0 then 0 else room
  {
    var kept := TruncateUtf8(s, room);
    EncodedSize(s);
    EncodedSize(kept);
    if room > 0 && ByteLength(s) > room {
      var f := Recode(Fit(s, room));
      TruncateIsFit(s, room);
      FitFits(s, room);
      RecodeKeepsLength(Fit(s, room));
      StripIsPrefix(f, kept);
      PrefixNoLonger(f, |kept|);
    }
  }
}
