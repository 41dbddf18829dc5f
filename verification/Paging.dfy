/** Listing a job's muxings page by page, and one output file per muxing. */
module Paging {
  import opened Wrappers

  const PAGE := 100
  const TWO31 := 0x8000_0000

  datatype Muxing = Muxing(id: string, fileName: string)

  datatype File = File(path: string)

  /** The remote service: a fixed list, and which of its calls fail. */
  datatype Service = Service(list: seq<Muxing>, failingPages: set<nat>, failingInfos: set<string>)

  /** Conversion of a length to a 32-bit offset. */
  function ToInt32(n: nat): int {
    var low := n % 0x1_0000_0000;
    if low < TWO31 then low else low - 0x1_0000_0000
  }

  /** The window of at most a hundred items at an offset. */
  function Window(list: seq<Muxing>, offset: nat): seq<Muxing> {
    if offset >= |list| then []
    else if offset + PAGE <= |list| then list[offset..offset + PAGE]
    else list[offset..]
  }

  /** How many pages a list takes; an empty one still takes a call. */
  function Pages(n: nat): nat {
    if n == 0 then 1 else (n + PAGE - 1) / PAGE
  }

  lemma OffsetFits(n: nat)
    requires n < TWO31
    ensures ToInt32(n) == n
  {
  }

  /** What has been fetched after some calls. */
  function Fetched(list: seq<Muxing>, calls: nat): seq<Muxing> {
    if calls * PAGE <= |list| then list[..calls * PAGE] else list
  }

  lemma OneMorePage(list: seq<Muxing>, calls: nat)
    requires calls == 0 || |Fetched(list, calls)| < |list|
    ensures Fetched(list, calls + 1) == Fetched(list, calls) + Window(list, |Fetched(list, calls)|)
    ensures calls < Pages(|list|)
  {
  }

  lemma AllPages(list: seq<Muxing>, calls: nat)
    requires 0 < calls <= Pages(|list|) && |Fetched(list, calls)| >= |list|
    ensures Fetched(list, calls) == list && calls == Pages(|list|)
  {
  }

  /** The calls fetch exactly the list, in order, in as many calls as it has pages, unless one of
      those calls fails. */
  method ListAll(service: Service) returns (r: Option<seq<Muxing>>, calls: nat)
    requires |service.list| < TWO31
    ensures r.Some? ==> r.value == service.list && calls == Pages(|service.list|)
    ensures r.Some? && service.list != [] ==> 100 * (calls - 1) < |service.list| <= 100 * calls
    ensures r.Some? && service.list == [] ==> calls == 1
    ensures r.Some? <==> forall k :: 0 <= k < Pages(|service.list|) ==> k !in service.failingPages
  {
    var totalCount := 1;
    var muxings := [];
    calls := 0;
    while |muxings| < totalCount
      invariant muxings == Fetched(service.list, calls) && |muxings| <= |service.list|
      invariant totalCount == if calls == 0 then 1 else |service.list|
      invariant calls <= Pages(|service.list|)
      invariant forall k :: 0 <= k < calls ==> k !in service.failingPages
      decreases Pages(|service.list|) - calls
    {
      OneMorePage(service.list, calls);
      OffsetFits(|muxings|);
      var offset := ToInt32(|muxings|);
      if calls in service.failingPages {
        return None, calls;
      }
      var items := Window(service.list, offset);
      totalCount := |service.list|;
      muxings := muxings + items;
      calls := calls + 1;
    }
    AllPages(service.list, calls);
    r := Some(muxings);
  }

  function FilesOf(destination: string, muxings: seq<Muxing>): (files: seq<File>)
    ensures |files| == |muxings|
    ensures forall i :: 0 <= i < |muxings| ==> files[i] == File(destination + muxings[i].fileName)
  {
    if muxings == [] then []
    else FilesOf(destination, muxings[..|muxings| - 1]) + [File(destination + muxings[|muxings| - 1].fileName)]
  }

  /** How many muxings come before the first whose information cannot be had. */
  function Known(muxings: seq<Muxing>, failing: set<string>): (n: nat)
    ensures n <= |muxings|
    ensures forall i :: 0 <= i < n ==> muxings[i].id !in failing
    ensures n < |muxings| ==> muxings[n].id in failing
  {
    if muxings == [] || muxings[0].id in failing then 0 else 1 + Known(muxings[1..], failing)
  }

  /** Appends a file per listed item, in list order; on a failure, those before it. */
  method Enrich(service: Service, destination: string, files: seq<File>) returns (ok: bool, enriched: seq<File>)
    requires |service.list| < TWO31
    ensures ok <==>
      && (forall k :: 0 <= k < Pages(|service.list|) ==> k !in service.failingPages)
      && (forall i :: 0 <= i < |service.list| ==> service.list[i].id !in service.failingInfos)
    ensures ok ==> enriched == files + FilesOf(destination, service.list)
    ensures !ok && (exists k :: 0 <= k < Pages(|service.list|) && k in service.failingPages) ==> enriched == files
    ensures !ok && (forall k :: 0 <= k < Pages(|service.list|) ==> k !in service.failingPages) ==>
      enriched == files + FilesOf(destination, service.list[..Known(service.list, service.failingInfos)])
  {
    enriched := files;
    var muxings, calls := ListAll(service);
    if muxings.None? {
      return false, enriched;
    }
    var all := muxings.value;
    for i := 0 to |all|
      invariant i <= Known(all, service.failingInfos)
      invariant enriched == files + FilesOf(destination, all[..i])
    {
      if all[i].id in service.failingInfos {
        assert i == Known(all, service.failingInfos);
        return false, enriched;
      }
      assert all[..i + 1][..i] == all[..i];
      enriched := enriched + [File(destination + all[i].fileName)];
    }
    assert all[..|all|] == all;
    ok := true;
  }
}
