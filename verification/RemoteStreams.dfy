/** The two filters a remote channel's bytes pass before they reach the runbook:
    the removal of a leading marker, and the byte cap. */
module RemoteStreams {
  import opened Options
  import opened Utf8

  function Concat(chunks: seq<Bytes>): Bytes {
    if chunks == [] then [] else Concat(chunks[..|chunks| - 1]) + chunks[|chunks| - 1]
  }

  // ---- LeadingMarker ----------------------------------------------------------

  /** `held` is the text that may still turn out to be the marker; None once decided. */
  datatype Filter = Filter(held: Option<Bytes>, seen: bool, sunk: Bytes)

  const FRESH := Filter(Some([]), false, [])

  function FilterChunk(marker: Bytes, f: Filter, chunk: Bytes): Filter {
    match f.held
    case None => f.(sunk := f.sunk + chunk)
    case Some(held) =>
      var buf := held + chunk;
      var n := if |buf| < |marker| then |buf| else |marker|;
      if buf[..n] != marker[..n] then Filter(None, f.seen, f.sunk + buf)
      else if |buf| < |marker| then f.(held := Some(buf))
      else Filter(None, true, f.sunk + buf[|marker|..])
  }

  function FinishFilter(f: Filter): Filter {
    match f.held
    case None => f
    case Some(held) => Filter(None, f.seen, f.sunk + held)
  }

  function PushAll(marker: Bytes, chunks: seq<Bytes>): Filter {
    if chunks == [] then FRESH else FilterChunk(marker, PushAll(marker, chunks[..|chunks| - 1]), chunks[|chunks| - 1])
  }

  /** Comparing up to the shorter length tells whether one text starts the other. */
  lemma Comparable(a: Bytes, b: Bytes)
    ensures var n := if |a| < |b| then |a| else |b|; a[..n] == b[..n] <==> a <= b || b <= a
  {
    assert |a| < |b| ==> a[..|a|] == a;
    assert |b| <= |a| ==> b[..|b|] == b;
  }

  lemma StillNoPrefix(marker: Bytes, all: Bytes, last: Bytes)
    requires !(marker <= all) && !(all <= marker)
    ensures !(marker <= all + last) && !(all + last <= marker)
  {
    var n := if |all| < |marker| then |all| else |marker|;
    Comparable(all, marker);
    assert (all + last)[..n] == all[..n];
  }

  /** Where the filter stands after some chunks depends only on their concatenation. */
  lemma {:induction false} FilterState(marker: Bytes, chunks: seq<Bytes>)
    ensures var all, f := Concat(chunks), PushAll(marker, chunks);
      match f.held
      case Some(held) => held == all && f.sunk == [] && !f.seen && all <= marker && (all == marker ==> chunks == [])
      case None => chunks != [] && (if marker <= all then f.seen && f.sunk == all[|marker|..] else !f.seen && f.sunk == all && !(all <= marker))
  {
    if chunks != [] {
      var init, last := chunks[..|chunks| - 1], chunks[|chunks| - 1];
      FilterState(marker, init);
      var f, all := PushAll(marker, init), Concat(init);
      if f.held.Some? {
        Comparable(all + last, marker);
        assert [] + (all + last) == all + last;
      } else if marker <= all {
        assert (all + last)[..|marker|] == all[..|marker|];
        assert (all + last)[|marker|..] == all[|marker|..] + last;
      } else {
        StillNoPrefix(marker, all, last);
      }
    }
  }

  /** Whatever the chunking: a leading marker is removed, and nothing else is ever changed. */
  lemma MarkerIsStripped(marker: Bytes, chunks: seq<Bytes>)
    requires chunks != []
    ensures var all, f := Concat(chunks), FinishFilter(PushAll(marker, chunks));
      && f.seen == (marker <= all)
      && f.sunk == if marker <= all then all[|marker|..] else all
  {
    FilterState(marker, chunks);
    var f := PushAll(marker, chunks);
    if f.held.Some? {
      assert [] + f.held.value == f.held.value;
    }
  }

  class LeadingMarker {
    const marker: Bytes
    var held: Option<Bytes>
    var seen: bool
    /** What the sink has received. */
    var sunk: Bytes

    function State(): Filter
      reads this
    {
      Filter(held, seen, sunk)
    }

    constructor (marker: Bytes)
      ensures this.marker == marker && State() == FRESH
    {
      this.marker := marker;
      held, seen, sunk := Some([]), false, [];
    }

    method Push(chunk: Bytes)
      modifies this
      ensures State() == FilterChunk(marker, old(State()), chunk)
    {
      if held.None? {
        sunk := sunk + chunk;
        return;
      }
      var buf := held.value + chunk;
      var n := if |buf| < |marker| then |buf| else |marker|;
      if buf[..n] != marker[..n] {
        held := None;
        sunk := sunk + buf;
      } else if |buf| < |marker| {
        held := Some(buf);
      } else {
        held := None;
        seen := true;
        if |buf| > |marker| {
          sunk := sunk + buf[|marker|..];
        }
      }
    }

    method Flush()
      modifies this
      ensures State() == FinishFilter(old(State()))
    {
      var rest := held;
      held := None;
      if rest.Some? && |rest.value| > 0 {
        sunk := sunk + rest.value;
      }
    }
  }

  // ---- OutputCollector's cap ----------------------------------------------------

  /** The bytes passed to the decoder so far. */
  datatype Capped = Capped(kept: Bytes, truncated: bool)

  function Keep(maxBytes: int, c: Capped, chunk: Bytes): Capped {
    if c.truncated then c
    else
      var room := maxBytes - |c.kept|;
      if |chunk| > room then Capped(c.kept + chunk[..if room < 0 then 0 else room], true)
      else Capped(c.kept + chunk, false)
  }

  function KeepAll(maxBytes: int, chunks: seq<Bytes>): Capped {
    if chunks == [] then Capped([], false)
    else Keep(maxBytes, KeepAll(maxBytes, chunks[..|chunks| - 1]), chunks[|chunks| - 1])
  }

  /** Whatever the chunking, exactly the first `maxBytes` bytes go through. */
  lemma {:induction false} CapKeepsPrefix(maxBytes: nat, chunks: seq<Bytes>)
    ensures var all, c := Concat(chunks), KeepAll(maxBytes, chunks);
      && c.truncated == (|all| > maxBytes)
      && c.kept == if |all| > maxBytes then all[..maxBytes] else all
  {
    if chunks != [] {
      CapKeepsPrefix(maxBytes, chunks[..|chunks| - 1]);
    }
  }

  class OutputCollector {
    const maxBytes: int
    var bytes: int
    var kept: Bytes
    var truncated: bool

    ghost predicate Valid()
      reads this
    {
      bytes == |kept|
    }

    constructor (maxBytes: int)
      ensures this.maxBytes == maxBytes && Valid() && kept == [] && !truncated
    {
      this.maxBytes := maxBytes;
      bytes, kept, truncated := 0, [], false;
    }

    method Push(chunk: Bytes)
      requires Valid()
      modifies this
      ensures Valid() && Capped(kept, truncated) == Keep(maxBytes, old(Capped(kept, truncated)), chunk)
    {
      if truncated {
        return;
      }
      var room := maxBytes - bytes;
      var keep := chunk;
      if |chunk| > room {
        keep := chunk[..if room < 0 then 0 else room];
        truncated := true;
      }
      bytes := bytes + |keep|;
      kept := kept + keep;
    }
  }
}
