// Half-open address intervals, searched in order for the first that contains an address.

module Intervals {
  import opened Types

  datatype Span = Span(start: u64, end: u64) {
    predicate Contains(addr: u64) {
      start <= addr < end
    }
  }

  /** The first span that contains addr. */
  function FirstHit(spans: seq<Span>, addr: u64): (r: Option<nat>)
    ensures r.Some? ==> r.value < |spans| && spans[r.value].Contains(addr)
    ensures r.Some? ==> forall i :: 0 <= i < r.value ==> !spans[i].Contains(addr)
    ensures r.None? ==> forall i :: 0 <= i < |spans| ==> !spans[i].Contains(addr)
    decreases |spans|
  {
    if spans == [] then None
    else
      match FirstHit(spans[..|spans| - 1], addr)
      case Some(i) => Some(i)
      case None => if spans[|spans| - 1].Contains(addr) then Some(|spans| - 1) else None
  }

  /** No address lies in two spans. */
  ghost predicate Disjoint(spans: seq<Span>) {
    forall i, j :: 0 <= i < j < |spans| ==>
      spans[i].start >= spans[i].end || spans[j].start >= spans[j].end
      || spans[i].end <= spans[j].start || spans[j].end <= spans[i].start
  }

  /** In a disjoint layout the search finds the one span around the address. */
  lemma OnlyHit(spans: seq<Span>, addr: u64, k: nat)
    requires Disjoint(spans)
    ensures FirstHit(spans, addr) == Some(k) <==> k < |spans| && spans[k].Contains(addr)
  {
  }
}
