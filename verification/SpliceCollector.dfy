/** Trimming a source splice by splice: one goroutine per range reports on a channel with room for
    all of them, and the collector concatenates what arrives in splice order. */
module SpliceCollector {

  /** The outcome of one trim call; its position is its index in the splice. */
  datatype Trim = Trim(id: string, ok: bool)

  // ---------------------------------------------------------------- workers and channel

  /** `pending` workers have not sent yet; `buffer` and `received` hold positions in order. */
  datatype State = State(pending: set<nat>, buffer: seq<nat>, received: seq<nat>)

  function Positions(n: nat): (all: set<nat>)
    ensures |all| == n && forall i: nat :: i in all <==> i < n
  {
    if n == 0 then {} else Positions(n - 1) + {n - 1}
  }

  function Initially(n: nat): State {
    State(Positions(n), [], [])
  }

  /** A channel send by worker `i` completes when the buffer has room. */
  ghost predicate Sends(n: nat, s: State, s': State, i: nat) {
    && i in s.pending
    && |s.buffer| < n
    && s' == s.(pending := s.pending - {i}, buffer := s.buffer + [i])
  }

  /** The collector takes the oldest buffered report. */
  ghost predicate Receives(s: State, s': State) {
    && s.buffer != []
    && s' == s.(buffer := s.buffer[1..], received := s.received + [s.buffer[0]])
  }

  ghost predicate Next(n: nat, s: State, s': State) {
    Receives(s, s') || exists i :: Sends(n, s, s', i)
  }

  ghost predicate Run(n: nat, run: seq<State>) {
    && run != []
    && run[0] == Initially(n)
    && forall k :: 0 <= k < |run| - 1 ==> Next(n, run[k], run[k + 1])
  }

  ghost predicate Distinct(xs: seq<nat>) {
    forall i, j :: 0 <= i < j < |xs| ==> xs[i] != xs[j]
  }

  ghost predicate Inv(n: nat, s: State) {
    && |s.pending| + |s.buffer| + |s.received| == n
    && Distinct(s.received + s.buffer)
    && (forall i :: i in s.pending ==> i < n && i !in s.received + s.buffer)
    && (forall i :: i in s.received + s.buffer ==> i < n)
  }

  lemma {:induction false} RunsKeepInv(n: nat, run: seq<State>, k: nat)
    requires Run(n, run) && k < |run|
    ensures Inv(n, run[k])
  {
    if k == 0 {
    } else {
      RunsKeepInv(n, run, k - 1);
      var s, s' := run[k - 1], run[k];
      assert Next(n, run[k - 1], run[k - 1 + 1]);
      if Receives(s, s') {
        assert s'.received + s'.buffer == s.received + s.buffer;
      } else {
        var i :| Sends(n, s, s', i);
        assert s'.received + s'.buffer == (s.received + s.buffer) + [i];
        assert s.pending == s'.pending + {i};
      }
    }
  }

  /** No worker ever blocks on its send, even if the collector has stopped receiving. */
  lemma SendNeverBlocks(n: nat, run: seq<State>, k: nat, i: nat)
    requires Run(n, run) && k < |run| && i in run[k].pending
    ensures exists s' :: Sends(n, run[k], s', i)
  {
    RunsKeepInv(n, run, k);
    var s := run[k];
    assert s.pending != {};
    assert Sends(n, s, s.(pending := s.pending - {i}, buffer := s.buffer + [i]), i);
  }

  /** Sends and receives that are still due. */
  function Work(s: State): nat {
    2 * |s.pending| + |s.buffer|
  }

  lemma StepsSpend(n: nat, s: State, s': State)
    requires Next(n, s, s')
    ensures Work(s') + 1 == Work(s)
  {
    if !Receives(s, s') {
      var i :| Sends(n, s, s', i);
      assert s.pending == s'.pending + {i};
    }
  }

  /** Every run takes one send and one receive for each report and no more. */
  lemma {:induction false} RunsAreBounded(n: nat, run: seq<State>, k: nat)
    requires Run(n, run) && k < |run|
    ensures k + Work(run[k]) == 2 * n
  {
    if k == 0 {
      assert |Positions(n)| == n;
    } else {
      RunsAreBounded(n, run, k - 1);
      assert Next(n, run[k - 1], run[k - 1 + 1]);
      StepsSpend(n, run[k - 1], run[k]);
    }
  }

  /** The collector never waits for ever: nothing more can happen exactly when it has all reports,
      which is after 2n steps whatever their order. */
  lemma AtRestExactlyWhenAllReceived(n: nat, run: seq<State>, k: nat)
    requires Run(n, run) && k < |run|
    ensures (forall s' :: !Next(n, run[k], s')) <==> |run[k].received| == n
    ensures |run[k].received| == n <==> k == 2 * n
  {
    var s := run[k];
    RunsKeepInv(n, run, k);
    RunsAreBounded(n, run, k);
    if s.buffer != [] {
      var s' := s.(buffer := s.buffer[1..], received := s.received + [s.buffer[0]]);
      assert Receives(s, s') && Next(n, s, s');
    } else if s.pending != {} {
      var i :| i in s.pending;
      SendNeverBlocks(n, run, k, i);
      var s' :| Sends(n, s, s', i);
      assert Next(n, s, s');
    } else {
      forall s' ensures !Next(n, s, s') {
        if Next(n, s, s') {
          StepsSpend(n, s, s');
        }
      }
    }
  }

  /** The orders in which n reports can arrive. */
  ghost predicate ArrivalOrder(order: seq<nat>, n: nat) {
    |order| == n && Distinct(order) && forall i :: 0 <= i < |order| ==> order[i] < n
  }

  /** What has been received once nothing more can happen is such an order. */
  lemma ReceivedIsAnArrivalOrder(n: nat, run: seq<State>, k: nat)
    requires Run(n, run) && k < |run| && forall s' :: !Next(n, run[k], s')
    ensures ArrivalOrder(run[k].received, n)
  {
    RunsKeepInv(n, run, k);
    AtRestExactlyWhenAllReceived(n, run, k);
    assert run[k].received + run[k].buffer == run[k].received;
    assert forall i :: 0 <= i < n ==> run[k].received[i] in run[k].received;
  }

  // ---------------------------------------------------------------- the collector

  datatype Config = Config(main: bool, id: string, pos: nat)

  datatype Spliced =
    | Source                              // nothing to splice
    | Lone(id: string)                    // a single range is not concatenated
    | Concatenation(configs: seq<Config>)
    | Failed(range: nat)

  function Insert(c: Config, sorted: seq<Config>): seq<Config> {
    if sorted == [] || c.pos <= sorted[0].pos then [c] + sorted
    else [sorted[0]] + Insert(c, sorted[1..])
  }

  /** `sort.Slice` by position. */
  function SortByPosition(cs: seq<Config>): seq<Config> {
    if cs == [] then [] else Insert(cs[|cs| - 1], SortByPosition(cs[..|cs| - 1]))
  }

  ghost predicate Ascending(cs: seq<Config>) {
    forall i, j :: 0 <= i < j < |cs| ==> cs[i].pos < cs[j].pos
  }

  lemma {:induction false} InsertKeepsOrder(c: Config, sorted: seq<Config>)
    requires Ascending(sorted) && forall d :: d in sorted ==> d.pos != c.pos
    ensures Ascending(Insert(c, sorted)) && |Insert(c, sorted)| == |sorted| + 1
    ensures forall d :: d in Insert(c, sorted) <==> d == c || d in sorted
  {
    if sorted != [] && c.pos > sorted[0].pos {
      var rest := Insert(c, sorted[1..]);
      InsertKeepsOrder(c, sorted[1..]);
      assert sorted == [sorted[0]] + sorted[1..];
      forall d | d in rest ensures sorted[0].pos < d.pos {
        assert d == c || d in sorted[1..];
      }
    }
  }

  lemma {:induction false} SortOrders(cs: seq<Config>)
    requires forall i, j :: 0 <= i < j < |cs| ==> cs[i].pos != cs[j].pos
    ensures Ascending(SortByPosition(cs)) && |SortByPosition(cs)| == |cs|
    ensures forall d :: d in SortByPosition(cs) <==> d in cs
  {
    if cs == [] {
    } else {
      var n := |cs| - 1;
      SortOrders(cs[..n]);
      assert cs == cs[..n] + [cs[n]];
      InsertKeepsOrder(cs[n], SortByPosition(cs[..n]));
    }
  }

  /** n ascending positions below n are 0 to n-1. */
  lemma {:induction false} AscendingFillsRange(cs: seq<Config>, k: nat)
    requires Ascending(cs) && k < |cs| && forall i :: 0 <= i < |cs| ==> cs[i].pos < |cs|
    ensures cs[k].pos == k
  {
    AtLeastItsIndex(cs, k);
    AtMostItsIndex(cs, k);
  }

  lemma {:induction false} AtLeastItsIndex(cs: seq<Config>, k: nat)
    requires Ascending(cs) && k < |cs|
    ensures cs[k].pos >= k
  {
    if k == 0 {
    } else {
      AtLeastItsIndex(cs, k - 1);
      assert cs[k - 1].pos < cs[k].pos;
    }
  }

  lemma {:induction false} AtMostItsIndex(cs: seq<Config>, k: nat)
    requires Ascending(cs) && k < |cs| && forall i :: 0 <= i < |cs| ==> cs[i].pos < |cs|
    ensures cs[k].pos <= k
    decreases |cs| - k
  {
    if k == |cs| - 1 {
    } else {
      AtMostItsIndex(cs, k + 1);
      assert cs[k].pos < cs[k + 1].pos;
    }
  }

  /** The entries appended in arrival order: the first to arrive is marked main. */
  function Arrived(trims: seq<Trim>, order: seq<nat>): (cs: seq<Config>)
    requires forall i :: 0 <= i < |order| ==> order[i] < |trims|
    ensures |cs| == |order|
    ensures forall i :: 0 <= i < |cs| ==> cs[i] == Config(i == 0, trims[order[i]].id, order[i])
  {
    if order == [] then []
    else
      var n := |order| - 1;
      Arrived(trims, order[..n]) + [Config(n == 0, trims[order[n]].id, order[n])]
  }

  /** The streams in splice order, each at its own position, with `main` marked. */
  ghost predicate InSpliceOrder(cs: seq<Config>, trims: seq<Trim>, main: nat) {
    |cs| == |trims| && forall i :: 0 <= i < |cs| ==> cs[i] == Config(i == main, trims[i].id, i)
  }

  lemma {:induction false} EntryOf(trims: seq<Trim>, order: seq<nat>, c: Config)
    requires ArrivalOrder(order, |trims|) && c in Arrived(trims, order)
    ensures c.pos < |trims| && c == Config(c.pos == order[0], trims[c.pos].id, c.pos)
  {
    var j :| 0 <= j < |order| && Arrived(trims, order)[j] == c;
    assert j == 0 <==> order[j] == order[0];
  }

  /** For every arrival order, sorting puts the streams in splice order, each at its own position,
      with exactly one main entry: the one that arrived first. */
  lemma {:induction false} SpliceOrderForEveryArrival(trims: seq<Trim>, order: seq<nat>)
    requires ArrivalOrder(order, |trims|) && trims != []
    ensures InSpliceOrder(SortByPosition(Arrived(trims, order)), trims, order[0])
  {
    var cs := Arrived(trims, order);
    var sorted := SortByPosition(cs);
    SortOrders(cs);
    forall i | 0 <= i < |sorted| ensures sorted[i] in cs && sorted[i].pos < |sorted| {
      assert sorted[i] in sorted;
      EntryOf(trims, order, sorted[i]);
    }
    forall i | 0 <= i < |sorted| ensures sorted[i] == Config(i == order[0], trims[i].id, i) {
      AscendingFillsRange(sorted, i);
      EntryOf(trims, order, sorted[i]);
    }
  }

  method Collect(trims: seq<Trim>, order: seq<nat>) returns (r: Spliced)
    requires ArrivalOrder(order, |trims|)
    ensures |trims| == 0 ==> r == Source
    ensures |trims| == 1 ==> r == if trims[0].ok then Lone(trims[0].id) else Failed(1)
    ensures |trims| >= 2 && (forall i :: 0 <= i < |trims| ==> trims[i].ok) ==>
      r.Concatenation? && InSpliceOrder(r.configs, trims, order[0])
    ensures |trims| >= 2 && r.Failed? ==>
      exists k :: 0 <= k < |order| && r.range == order[k] && !trims[order[k]].ok
               && forall j :: 0 <= j < k ==> trims[order[j]].ok
    ensures (exists i :: 0 <= i < |trims| && !trims[i].ok) ==> r.Failed?
  {
    if |trims| == 0 {
      return Source;
    }
    if |order| == 1 {
      var w := trims[order[0]];
      return if w.ok then Lone(w.id) else Failed(1);
    }
    var cat: seq<Config> := [];
    for i := 0 to |order|
      invariant |cat| == i && forall j :: 0 <= j < i ==> cat[j] == Config(j == 0, trims[order[j]].id, order[j])
      invariant forall j :: 0 <= j < i ==> trims[order[j]].ok
    {
      var w := trims[order[i]];
      if !w.ok {
        return Failed(order[i]);
      }
      cat := cat + [Config(i == 0, w.id, order[i])];
    }
    assert cat == Arrived(trims, order);
    EveryPositionArrives(order, |trims|);
    forall i | 0 <= i < |trims| ensures trims[i].ok {
      assert i in order;
    }
    SpliceOrderForEveryArrival(trims, order);
    r := Concatenation(SortByPosition(cat));
  }

  /** Nothing is left out of an arrival order. */
  lemma EveryPositionArrives(order: seq<nat>, n: nat)
    requires ArrivalOrder(order, n)
    ensures forall i: nat :: i < n ==> i in order
  {
    SizeOfDistinct(order);
    forall i: nat | i < n && i !in order
      ensures false
    {
      assert Elements(order) <= Positions(n) - {i} by {
        forall x | x in Elements(order) ensures x in Positions(n) && x != i {
          var j :| 0 <= j < |order| && order[j] == x;
        }
      }
      SubsetIsSmaller(Elements(order), Positions(n) - {i});
    }
  }

  ghost function Elements(xs: seq<nat>): set<nat> {
    set x | x in xs
  }

  lemma {:induction false} SizeOfDistinct(xs: seq<nat>)
    requires Distinct(xs)
    ensures |Elements(xs)| == |xs|
  {
    if xs == [] {
      assert Elements(xs) == {};
    } else {
      var n := |xs| - 1;
      SizeOfDistinct(xs[..n]);
      assert xs == xs[..n] + [xs[n]];
      assert xs[n] !in xs[..n];
      assert Elements(xs) == Elements(xs[..n]) + {xs[n]};
    }
  }

  lemma {:induction false} SubsetIsSmaller(a: set<nat>, b: set<nat>)
    requires a <= b
    ensures |a| <= |b|
  {
    if a == {} {
    } else {
      var x :| x in a;
      SubsetIsSmaller(a - {x}, b - {x});
    }
  }
}
