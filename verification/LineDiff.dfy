/** The crontab line diff: a longest-common-subsequence table over the region
    between the common prefix and suffix, and a walk over it that emits the ops. */
module LineDiff {
  import opened Text

  datatype Op = Same(text: string) | Add(text: string) | Del(text: string)

  // ---- What a diff means -------------------------------------------------

  /** The file the ops start from. */
  function BeforeOf(ops: seq<Op>): seq<string> {
    if ops == [] then [] else (if ops[0].Add? then [] else [ops[0].text]) + BeforeOf(ops[1..])
  }

  /** The file the ops end with. */
  function AfterOf(ops: seq<Op>): seq<string> {
    if ops == [] then [] else (if ops[0].Del? then [] else [ops[0].text]) + AfterOf(ops[1..])
  }

  /** The lines kept. */
  function KeptOf(ops: seq<Op>): seq<string> {
    if ops == [] then [] else (if ops[0].Same? then [ops[0].text] else []) + KeptOf(ops[1..])
  }

  /** `c` can be obtained from `s` by deleting lines. */
  predicate IsSubseq(c: seq<string>, s: seq<string>) {
    if c == [] then true
    else if s == [] then false
    else (c[0] == s[0] && IsSubseq(c[1..], s[1..])) || IsSubseq(c, s[1..])
  }

  predicate IsCommon(c: seq<string>, a: seq<string>, b: seq<string>) {
    IsSubseq(c, a) && IsSubseq(c, b)
  }

  /** A diff of `a` and `b`: any op list that turns one into the other. */
  predicate IsDiff(ops: seq<Op>, a: seq<string>, b: seq<string>) {
    BeforeOf(ops) == a && AfterOf(ops) == b
  }

  /** The kept lines are as many as any common subsequence of the two files has. */
  ghost predicate KeepsMost(ops: seq<Op>, a: seq<string>, b: seq<string>) {
    forall c :: IsCommon(c, a, b) ==> |c| <= |KeptOf(ops)|
  }

  lemma {:induction false} KeptIsCommon(ops: seq<Op>)
    ensures IsCommon(KeptOf(ops), BeforeOf(ops), AfterOf(ops))
  {
    if ops != [] {
      KeptIsCommon(ops[1..]);
      var k, x, y := KeptOf(ops[1..]), BeforeOf(ops[1..]), AfterOf(ops[1..]);
      var t := ops[0].text;
      match ops[0]
      case Same(_) =>
        assert ([t] + k)[1..] == k && ([t] + x)[1..] == x && ([t] + y)[1..] == y;
      case Add(_) =>
        assert [] + x == x && [] + k == k;
        SubseqSkip(k, y, t);
      case Del(_) =>
        assert [] + y == y && [] + k == k;
        SubseqSkip(k, x, t);
    }
  }

  lemma SubseqSkip(c: seq<string>, s: seq<string>, t: string)
    requires IsSubseq(c, s)
    ensures IsSubseq(c, [t] + s)
  {
    assert ([t] + s)[1..] == s;
  }

  lemma {:induction false} BeforeAppend(p: seq<Op>, q: seq<Op>)
    ensures BeforeOf(p + q) == BeforeOf(p) + BeforeOf(q)
    ensures AfterOf(p + q) == AfterOf(p) + AfterOf(q)
    ensures KeptOf(p + q) == KeptOf(p) + KeptOf(q)
  {
    if p == [] {
      assert p + q == q;
    } else {
      var r, whole := p[1..], p + q;
      assert whole[0] == p[0] && whole[1..] == r + q;
      BeforeAppend(r, q);
      FirstOp(p, r);
      FirstOp(whole, r + q);
      Regroup(BeforeOf([p[0]]), BeforeOf(r), BeforeOf(q));
      Regroup(AfterOf([p[0]]), AfterOf(r), AfterOf(q));
      Regroup(KeptOf([p[0]]), KeptOf(r), KeptOf(q));
    }
  }

  lemma FirstOp(ops: seq<Op>, rest: seq<Op>)
    requires ops != [] && rest == ops[1..]
    ensures BeforeOf(ops) == BeforeOf([ops[0]]) + BeforeOf(rest)
    ensures AfterOf(ops) == AfterOf([ops[0]]) + AfterOf(rest)
    ensures KeptOf(ops) == KeptOf([ops[0]]) + KeptOf(rest)
  {
    assert [ops[0]][1..] == [];
  }

  /** Ops that keep every line of a common prefix or suffix. */
  function AllSame(lines: seq<string>): (ops: seq<Op>)
    ensures |ops| == |lines|
    ensures forall k :: 0 <= k < |lines| ==> ops[k] == Same(lines[k])
    ensures BeforeOf(ops) == lines && AfterOf(ops) == lines && KeptOf(ops) == lines
  {
    if lines == [] then [] else [Same(lines[0])] + AllSame(lines[1..])
  }

  // ---- The table ---------------------------------------------------------

  /** LCS length by the table's recurrence. */
  function Lcs(a: seq<string>, b: seq<string>): nat {
    if a == [] || b == [] then 0
    else if a[0] == b[0] then Lcs(a[1..], b[1..]) + 1
    else Max(Lcs(a[1..], b), Lcs(a, b[1..]))
  }

  function Max(x: nat, y: nat): nat {
    if x > y then x else y
  }

  /** Every entry is at most either line count, so the source's 32-bit entries cannot wrap. */
  lemma {:induction false} LcsBounded(a: seq<string>, b: seq<string>)
    ensures Lcs(a, b) <= |a| && Lcs(a, b) <= |b|
    decreases |a| + |b|
  {
    if a != [] && b != [] {
      LcsBounded(a[1..], b[1..]);
      LcsBounded(a[1..], b);
      LcsBounded(a, b[1..]);
    }
  }

  /** The ops as a function of the two files: keep a line both start with, otherwise
      prefer adding whenever that loses no more than deleting would. */
  function Merge(a: seq<string>, b: seq<string>): seq<Op>
    decreases |a| + |b|
  {
    if a == [] && b == [] then []
    else if a != [] && b != [] && a[0] == b[0] then [Same(a[0])] + Merge(a[1..], b[1..])
    else if b != [] && (a == [] || Lcs(a, b[1..]) >= Lcs(a[1..], b)) then [Add(b[0])] + Merge(a, b[1..])
    else [Del(a[0])] + Merge(a[1..], b)
  }

  lemma SubseqTail(c: seq<string>, s: seq<string>)
    requires c != [] && IsSubseq(c, s)
    ensures IsSubseq(c[1..], s)
    ensures s != [] && IsSubseq(c[1..], s[1..])
  {
    if !(c[0] == s[0] && IsSubseq(c[1..], s[1..])) {
      SubseqTail(c, s[1..]);
    }
    SubseqSkip(c[1..], s[1..], s[0]);
    assert [s[0]] + s[1..] == s;
  }

  /** The recurrence bounds every common subsequence, not only the one the walk finds. */
  lemma {:induction false} LcsIsMaximal(c: seq<string>, a: seq<string>, b: seq<string>)
    requires IsCommon(c, a, b)
    ensures |c| <= Lcs(a, b)
    decreases |a| + |b|
  {
    if c != [] {
      if a[0] == b[0] {
        SubseqTail(c, a);
        SubseqTail(c, b);
        LcsIsMaximal(c[1..], a[1..], b[1..]);
      } else if IsSubseq(c, a[1..]) {
        LcsIsMaximal(c, a[1..], b);
      } else {
        LcsIsMaximal(c, a, b[1..]);
      }
    }
  }

  // ---- Trimming loses nothing ---------------------------------------------

  lemma {:induction false} DropLastSubseq(c: seq<string>, s: seq<string>, x: string)
    requires c != [] && IsSubseq(c, s + [x])
    ensures IsSubseq(c[..|c| - 1], s)
  {
    var d := c[..|c| - 1];
    if s == [] {
      if d != [] {
        SubseqLength(c, s + [x]);
      }
    } else {
      assert (s + [x])[1..] == s[1..] + [x];
      if c[0] == s[0] && IsSubseq(c[1..], s[1..] + [x]) {
        if d != [] {
          DropLastSubseq(c[1..], s[1..], x);
          assert c[1..][..|c| - 2] == d[1..];
        }
      } else {
        DropLastSubseq(c, s[1..], x);
      }
    }
  }

  lemma SubseqLength(c: seq<string>, s: seq<string>)
    requires IsSubseq(c, s)
    ensures |c| <= |s|
  {}

  /** No common subsequence of the whole files beats keeping the prefix, the suffix and an LCS of the middle. */
  lemma {:induction false} TrimmingIsOptimal(pre: seq<string>, a: seq<string>, b: seq<string>, suf: seq<string>, c: seq<string>)
    requires IsCommon(c, pre + a + suf, pre + b + suf)
    ensures |c| <= |pre| + Lcs(a, b) + |suf|
    decreases |pre| + |suf|
  {
    if c == [] {
    } else if suf != [] {
      var n := |suf| - 1;
      assert pre + a + suf == (pre + a + suf[..n]) + [suf[n]];
      assert pre + b + suf == (pre + b + suf[..n]) + [suf[n]];
      DropLastSubseq(c, pre + a + suf[..n], suf[n]);
      DropLastSubseq(c, pre + b + suf[..n], suf[n]);
      TrimmingIsOptimal(pre, a, b, suf[..n], c[..|c| - 1]);
    } else if pre != [] {
      SubseqTail(c, pre + a + suf);
      SubseqTail(c, pre + b + suf);
      assert (pre + a + suf)[1..] == pre[1..] + a + suf && (pre + b + suf)[1..] == pre[1..] + b + suf;
      TrimmingIsOptimal(pre[1..], a, b, suf, c[1..]);
    } else {
      assert pre + a + suf == a && pre + b + suf == b;
      LcsIsMaximal(c, a, b);
    }
  }

  /** Position of `lcs[i][j]` in the flat array. */
  function Cell(i: nat, j: nat, width: nat): nat {
    i * width + j
  }

  lemma CellInRange(i: nat, j: nat, rows: nat, width: nat)
    requires i < rows && j < width
    ensures Cell(i, j, width) < rows * width
  {
    assert i * width + width == (i + 1) * width;
    assert (i + 1) * width <= rows * width;
  }

  lemma CellInjective(i: nat, j: nat, i': nat, j': nat, width: nat)
    requires j < width && j' < width && Cell(i, j, width) == Cell(i', j', width)
    ensures i == i' && j == j'
  {
    if i < i' {
      RowsOrdered(i + 1, i', width);
    } else if i' < i {
      RowsOrdered(i' + 1, i, width);
    }
  }

  lemma RowsOrdered(i: nat, i': nat, width: nat)
    requires i <= i'
    ensures i * width <= i' * width
  {}

  /** What the table holds once rows `i..` (and in row `i - 1`, columns `j..`) are filled. */
  ghost predicate Filled(t: seq<nat>, a: seq<string>, b: seq<string>, i: nat, j: nat) {
    var w := |b| + 1;
    && |t| == (|a| + 1) * w
    && forall x: nat, y: nat {:trigger Cell(x, y, w)} |
         x <= |a| && y <= |b| && Cell(x, y, w) < |t| && (x >= i || (x + 1 == i && y >= j) || y == |b|) ::
         t[Cell(x, y, w)] == Lcs(a[x..], b[y..])
  }

  lemma FilledStep(t: seq<nat>, a: seq<string>, b: seq<string>, i: nat, j: nat, v: nat)
    requires i < |a| && j < |b| && Filled(t, a, b, i + 1, j + 1)
    requires Cell(i, j, |b| + 1) < |t| && v == Lcs(a[i..], b[j..])
    ensures Filled(t[Cell(i, j, |b| + 1) := v], a, b, i + 1, j)
  {
    var w := |b| + 1;
    var u := t[Cell(i, j, w) := v];
    forall x: nat, y: nat {:trigger Cell(x, y, w)} | x <= |a| && y <= |b| && Cell(x, y, w) < |u|
      && (x >= i + 1 || (x == i && y >= j) || y == |b|)
      ensures u[Cell(x, y, w)] == Lcs(a[x..], b[y..])
    {
      if Cell(x, y, w) == Cell(i, j, w) {
        CellInjective(x, y, i, j, w);
      } else if x == i && y == j {
        assert false;
      }
    }
  }

  /** One entry from its three neighbours. */
  lemma LcsEntry(a: seq<string>, b: seq<string>, i: nat, j: nat)
    requires i < |a| && j < |b|
    ensures Lcs(a[i..], b[j..]) == if a[i] == b[j] then Lcs(a[i + 1..], b[j + 1..]) + 1
                                   else Max(Lcs(a[i + 1..], b[j..]), Lcs(a[i..], b[j + 1..]))
  {
    assert a[i..][1..] == a[i + 1..] && b[j..][1..] == b[j + 1..];
  }

  /** The three neighbours an entry is computed from are in the array and already hold their lengths. */
  lemma Neighbours(t: seq<nat>, a: seq<string>, b: seq<string>, i: nat, j: nat)
    requires i < |a| && j < |b| && Filled(t, a, b, i + 1, j + 1)
    ensures var w := |b| + 1;
      && Cell(i, j, w) < |t| && Cell(i + 1, j, w) < |t| && Cell(i, j + 1, w) < |t| && Cell(i + 1, j + 1, w) < |t|
      && Lcs(a[i..], b[j..]) == if a[i] == b[j] then t[Cell(i + 1, j + 1, w)] + 1
                                else Max(t[Cell(i + 1, j, w)], t[Cell(i, j + 1, w)])
  {
    LcsEntry(a, b, i, j);
    CellInRange(i, j, |a| + 1, |b| + 1);
    CellInRange(i + 1, j, |a| + 1, |b| + 1);
    CellInRange(i, j + 1, |a| + 1, |b| + 1);
    CellInRange(i + 1, j + 1, |a| + 1, |b| + 1);
  }

  lemma EmptyTable(t: seq<nat>, a: seq<string>, b: seq<string>)
    requires |t| == (|a| + 1) * (|b| + 1) && forall k :: 0 <= k < |t| ==> t[k] == 0
    ensures Filled(t, a, b, |a|, |b|)
  {}

  method FillRow(a: seq<string>, b: seq<string>, lcs: array<nat>, i: nat)
    requires i < |a| && Filled(lcs[..], a, b, i + 1, |b|)
    modifies lcs
    ensures Filled(lcs[..], a, b, i + 1, 0)
  {
    var m := |b|;
    var j: nat := m;
    while j > 0
      invariant j <= m && Filled(lcs[..], a, b, i + 1, j)
    {
      j := j - 1;
      Neighbours(lcs[..], a, b, i, j);
      var v := if a[i] == b[j] then lcs[Cell(i + 1, j + 1, m + 1)] + 1
               else Max(lcs[Cell(i + 1, j, m + 1)], lcs[Cell(i, j + 1, m + 1)]);
      FilledStep(lcs[..], a, b, i, j, v);
      lcs[Cell(i, j, m + 1)] := v;
    }
  }

  method FillTable(a: seq<string>, b: seq<string>) returns (lcs: array<nat>)
    ensures fresh(lcs) && Filled(lcs[..], a, b, 0, 0)
  {
    var n, m := |a|, |b|;
    lcs := new nat[(n + 1) * (m + 1)](_ => 0);
    EmptyTable(lcs[..], a, b);
    var i: nat := n;
    while i > 0
      invariant i <= n && Filled(lcs[..], a, b, i, m)
    {
      i := i - 1;
      FillRow(a, b, lcs, i);
    }
  }

  lemma MergeStep(a: seq<string>, b: seq<string>, i: nat, j: nat)
    requires i <= |a| && j <= |b| && (i < |a| || j < |b|)
    ensures Merge(a[i..], b[j..]) ==
      if i < |a| && j < |b| && a[i] == b[j] then [Same(a[i])] + Merge(a[i + 1..], b[j + 1..])
      else if j < |b| && (i >= |a| || Lcs(a[i..], b[j + 1..]) >= Lcs(a[i + 1..], b[j..])) then [Add(b[j])] + Merge(a[i..], b[j + 1..])
      else [Del(a[i])] + Merge(a[i + 1..], b[j..])
  {
    assert i < |a| ==> a[i..][1..] == a[i + 1..];
    assert j < |b| ==> b[j..][1..] == b[j + 1..];
  }

  /** The walk from the top left corner of the table. */
  method Walk(a: seq<string>, b: seq<string>, lcs: array<nat>) returns (ops: seq<Op>)
    requires Filled(lcs[..], a, b, 0, 0)
    ensures ops == Merge(a, b)
  {
    var n, m := |a|, |b|;
    ops := [];
    var i: nat, j: nat := 0, 0;
    while i < n || j < m
      invariant i <= n && j <= m
      invariant ops + Merge(a[i..], b[j..]) == Merge(a, b)
      decreases n - i + m - j
    {
      MergeStep(a, b, i, j);
      var addFirst := i >= n;
      if i < n && j < m {
        Neighbours(lcs[..], a, b, i, j);
        addFirst := lcs[Cell(i, j + 1, m + 1)] >= lcs[Cell(i + 1, j, m + 1)];
      }
      var op;
      if i < n && j < m && a[i] == b[j] {
        op := Same(a[i]);
        i, j := i + 1, j + 1;
      } else if j < m && addFirst {
        op := Add(b[j]);
        j := j + 1;
      } else {
        op := Del(a[i]);
        i := i + 1;
      }
      Regroup(ops, [op], Merge(a[i..], b[j..]));
      ops := ops + [op];
    }
  }

  /** The merge is a diff, and it keeps as many lines as the recurrence promises. */
  lemma {:induction false} MergeIsDiff(a: seq<string>, b: seq<string>)
    ensures IsDiff(Merge(a, b), a, b) && |KeptOf(Merge(a, b))| == Lcs(a, b)
    decreases |a| + |b|
  {
    if a == [] && b == [] {
    } else if a != [] && b != [] && a[0] == b[0] {
      MergeIsDiff(a[1..], b[1..]);
    } else if b != [] && (a == [] || Lcs(a, b[1..]) >= Lcs(a[1..], b)) {
      MergeIsDiff(a, b[1..]);
    } else {
      MergeIsDiff(a[1..], b);
    }
  }

  lemma PrefixGrows(a: seq<string>, b: seq<string>, pre: nat)
    requires pre < |a| && pre < |b| && a[..pre] == b[..pre] && a[pre] == b[pre]
    ensures a[..pre + 1] == b[..pre + 1]
  {
    assert a[..pre + 1] == a[..pre] + [a[pre]] && b[..pre + 1] == b[..pre] + [b[pre]];
  }

  lemma SuffixGrows(a: seq<string>, b: seq<string>, suf: nat)
    requires suf < |a| && suf < |b| && a[|a| - suf..] == b[|b| - suf..] && a[|a| - 1 - suf] == b[|b| - 1 - suf]
    ensures a[|a| - (suf + 1)..] == b[|b| - (suf + 1)..]
  {
    assert a[|a| - (suf + 1)..] == [a[|a| - 1 - suf]] + a[|a| - suf..];
    assert b[|b| - (suf + 1)..] == [b[|b| - 1 - suf]] + b[|b| - suf..];
  }

  /** The common prefix length, then the common suffix length of what is left. */
  method CommonEnds(a: seq<string>, b: seq<string>) returns (pre: nat, suf: nat)
    ensures pre + suf <= |a| && pre + suf <= |b|
    ensures a[..pre] == b[..pre] && a[|a| - suf..] == b[|b| - suf..]
    ensures pre < |a| && pre < |b| ==> a[pre] != b[pre]
    ensures pre + suf < |a| && pre + suf < |b| ==> a[|a| - 1 - suf] != b[|b| - 1 - suf]
  {
    pre := 0;
    while pre < |a| && pre < |b| && a[pre] == b[pre]
      invariant pre <= |a| && pre <= |b| && a[..pre] == b[..pre]
    {
      PrefixGrows(a, b, pre);
      pre := pre + 1;
    }
    suf := 0;
    while suf < |a| - pre && suf < |b| - pre && a[|a| - 1 - suf] == b[|b| - 1 - suf]
      invariant suf <= |a| - pre && suf <= |b| - pre && a[|a| - suf..] == b[|b| - suf..]
    {
      SuffixGrows(a, b, suf);
      suf := suf + 1;
    }
  }

  /** The ops turn `before` into `after`, and no other diff of the two keeps more lines. */
  method DiffCronLines(before: string, after: string) returns (ops: seq<Op>)
    ensures IsDiff(ops, SplitLines(before), SplitLines(after))
    ensures KeepsMost(ops, SplitLines(before), SplitLines(after))
  {
    var a, b := SplitLines(before), SplitLines(after);
    var pre, suf := CommonEnds(a, b);
    var am, bm := a[pre..|a| - suf], b[pre..|b| - suf];
    var lcs := FillTable(am, bm);
    var middle := Walk(am, bm, lcs);
    ops := AllSame(a[..pre]) + middle + AllSame(a[|a| - suf..]);

    MergeIsDiff(am, bm);
    Assemble(a[..pre], am, bm, a[|a| - suf..], middle);
    CutInThree(a, pre, suf);
    CutInThree(b, pre, suf);
  }

  lemma CutInThree(s: seq<string>, pre: nat, suf: nat)
    requires pre + suf <= |s|
    ensures s[..pre] + s[pre..|s| - suf] + s[|s| - suf..] == s
  {}

  lemma Assemble(pre: seq<string>, a: seq<string>, b: seq<string>, suf: seq<string>, middle: seq<Op>)
    requires IsDiff(middle, a, b) && |KeptOf(middle)| == Lcs(a, b)
    ensures IsDiff(AllSame(pre) + middle + AllSame(suf), pre + a + suf, pre + b + suf)
    ensures KeepsMost(AllSame(pre) + middle + AllSame(suf), pre + a + suf, pre + b + suf)
  {
    BeforeAppend(AllSame(pre) + middle, AllSame(suf));
    BeforeAppend(AllSame(pre), middle);
    forall c | IsCommon(c, pre + a + suf, pre + b + suf)
      ensures |c| <= |KeptOf(AllSame(pre) + middle + AllSame(suf))|
    {
      TrimmingIsOptimal(pre, a, b, suf, c);
    }
  }

  // ---- Minimality ---------------------------------------------------------

  lemma {:induction false} OpCounts(ops: seq<Op>)
    ensures |KeptOf(ops)| <= |ops|
    ensures |BeforeOf(ops)| + |AfterOf(ops)| == |ops| + |KeptOf(ops)|
  {
    if ops != [] { OpCounts(ops[1..]); }
  }

  /** Keeping a longest common subsequence is the same as making the fewest edits. */
  lemma MostKeptIsFewestEdits(ops: seq<Op>, other: seq<Op>, a: seq<string>, b: seq<string>)
    requires IsDiff(ops, a, b) && IsDiff(other, a, b)
    requires KeepsMost(ops, a, b)
    ensures |ops| - |KeptOf(ops)| <= |other| - |KeptOf(other)|
  {
    KeptIsCommon(other);
    OpCounts(ops);
    OpCounts(other);
  }
}
