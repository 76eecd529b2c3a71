/** The heap tracker: the dictionary of live allocations that the malloc/free
    hooks maintain, the per-process aggregate taken from it, and the
    basic-block counter that takes one aggregate every thousand blocks. */
module HeapTracker {
  import opened Wrappers
  import opened OrderedMap
  import opened Signed

  /** `(asid, address)`; the kernel uses asid 0. */
  datatype AllocKey = AllocKey(asid: nat, addr: nat)

  /** `(size, name)`; kernel allocations have no process name. */
  datatype Alloc = Alloc(size: nat, name: Option<string>)

  /** `active_allocs`. */
  type Allocs = OMap<AllocKey, Alloc>

  /** `add_alloc`: records the allocation, replacing whatever was recorded
      for the same process and address (the entry keeps its place in the
      iteration order; a new entry goes last); nothing else changes. */
  function AddAlloc(a: Allocs, address: nat, size: nat, asid: nat, name: Option<string>): (r: Allocs)
    ensures AllocKey(asid, address) in r.m && r.m[AllocKey(asid, address)] == Alloc(size, name)
    ensures forall k :: k != AllocKey(asid, address) ==> (k in r.m <==> k in a.m)
    ensures forall k :: k in a.m && k != AllocKey(asid, address) ==> r.m[k] == a.m[k]
    ensures AllocKey(asid, address) in a.m ==> r.order == a.order
    ensures AllocKey(asid, address) !in a.m ==> r.order == a.order + [AllocKey(asid, address)]
    ensures Valid(a) ==> Valid(r)
  {
    Put(a, AllocKey(asid, address), Alloc(size, name))
  }

  /** `rem_alloc`: forgets the allocation if it is recorded, keeping the
      other entries in their iteration order, and does nothing otherwise. */
  function RemAlloc(a: Allocs, address: nat, asid: nat): (r: Allocs)
    ensures AllocKey(asid, address) !in r.m
    ensures forall k :: k != AllocKey(asid, address) ==> (k in r.m <==> k in a.m)
    ensures forall k :: k in r.m ==> r.m[k] == a.m[k]
    ensures AllocKey(asid, address) !in a.m ==> r == a
    ensures AllocKey(asid, address) in a.m ==> r.order == Without(a.order, AllocKey(asid, address))
    ensures Valid(a) ==> Valid(r)
  {
    if AllocKey(asid, address) in a.m then Remove(a, AllocKey(asid, address)) else a
  }

  /** A malloc that is freed again before anything else happens leaves no
      trace, not even in the iteration order. */
  lemma AddThenRem(a: Allocs, address: nat, size: nat, asid: nat, name: Option<string>)
    requires Valid(a) && AllocKey(asid, address) !in a.m
    ensures RemAlloc(AddAlloc(a, address, size, asid, name), address, asid) == a
  {
    PutRemove(a, AllocKey(asid, address), Alloc(size, name));
  }

  /** One process's entry in a snapshot. */
  datatype Details = Details(name: Option<string>, totalSize: nat, totalAllocs: nat)

  /** One element of `recorded_results`: asid to details, in the order the
      asids were first met. */
  type Snapshot = OMap<nat, Details>

  // Reference definitions, read off the live allocations front to back.

  predicate HasAsid(ks: seq<AllocKey>, asid: nat) {
    exists i :: 0 <= i < |ks| && ks[i].asid == asid
  }

  /** Position of the process's first allocation in the iteration order. */
  function FirstOf(ks: seq<AllocKey>, asid: nat): (i: nat)
    requires HasAsid(ks, asid)
    ensures i < |ks| && ks[i].asid == asid
    ensures forall j :: 0 <= j < i ==> ks[j].asid != asid
  {
    if ks[0].asid == asid then 0
    else
      assert HasAsid(ks[1..], asid) by {
        var i :| 0 <= i < |ks| && ks[i].asid == asid;
        assert ks[1..][i - 1].asid == asid;
      }
      1 + FirstOf(ks[1..], asid)
  }

  function SumSizes(m: map<AllocKey, Alloc>, ks: seq<AllocKey>, asid: nat): nat
    requires forall i :: 0 <= i < |ks| ==> ks[i] in m
  {
    if |ks| == 0 then 0
    else (if ks[0].asid == asid then m[ks[0]].size else 0) + SumSizes(m, ks[1..], asid)
  }

  function CountAllocs(ks: seq<AllocKey>, asid: nat): nat {
    if |ks| == 0 then 0
    else (if ks[0].asid == asid then 1 else 0) + CountAllocs(ks[1..], asid)
  }

  lemma {:induction false} SumSizesAppend(m: map<AllocKey, Alloc>, ks: seq<AllocKey>, k: AllocKey, asid: nat)
    requires forall i :: 0 <= i < |ks| ==> ks[i] in m
    requires k in m
    ensures SumSizes(m, ks + [k], asid) == SumSizes(m, ks, asid) + (if k.asid == asid then m[k].size else 0)
  {
    if |ks| > 0 {
      assert (ks + [k])[1..] == ks[1..] + [k];
      SumSizesAppend(m, ks[1..], k, asid);
    }
  }

  lemma {:induction false} CountAllocsAppend(ks: seq<AllocKey>, k: AllocKey, asid: nat)
    ensures CountAllocs(ks + [k], asid) == CountAllocs(ks, asid) + (if k.asid == asid then 1 else 0)
  {
    if |ks| > 0 {
      assert (ks + [k])[1..] == ks[1..] + [k];
      CountAllocsAppend(ks[1..], k, asid);
    }
  }

  /** A process without allocations contributes nothing. */
  lemma {:induction false} AbsentSumsZero(m: map<AllocKey, Alloc>, ks: seq<AllocKey>, asid: nat)
    requires forall i :: 0 <= i < |ks| ==> ks[i] in m
    requires !HasAsid(ks, asid)
    ensures SumSizes(m, ks, asid) == 0 && CountAllocs(ks, asid) == 0
  {
    if |ks| > 0 {
      assert ks[0].asid != asid;
      assert forall i :: 0 <= i < |ks[1..]| ==> ks[1..][i] == ks[i + 1];
      AbsentSumsZero(m, ks[1..], asid);
    }
  }

  /** What the snapshot says about one process, given the allocations
      visited so far. */
  ghost predicate Summarises(m: map<AllocKey, Alloc>, ks: seq<AllocKey>, s: Snapshot, asid: nat)
    requires forall i :: 0 <= i < |ks| ==> ks[i] in m
  {
    && (asid in s.m <==> HasAsid(ks, asid))
    && (asid in s.m ==>
          s.m[asid] == Details(m[ks[FirstOf(ks, asid)]].name, SumSizes(m, ks, asid), CountAllocs(ks, asid)))
  }

  /** The first loop of `report_allocs` after visiting the allocations `ks`:
      a process's entry is created with the name of its first allocation
      and then accumulates size and count. */
  function Aggregate(m: map<AllocKey, Alloc>, ks: seq<AllocKey>): (s: Snapshot)
    requires forall i :: 0 <= i < |ks| ==> ks[i] in m
    ensures Valid(s)
    ensures forall asid :: Summarises(m, ks, s, asid)
  {
    if |ks| == 0 then Empty()
    else
      var ks', k := ks[..|ks| - 1], ks[|ks| - 1];
      assert ks == ks' + [k];
      var acc := Aggregate(m, ks');
      var d := if k.asid in acc.m then acc.m[k.asid] else Details(m[k].name, 0, 0);
      var s := Put(acc, k.asid, d.(totalSize := d.totalSize + m[k].size, totalAllocs := d.totalAllocs + 1));
      AggregateStep(m, ks', k, acc, s);
      s
  }

  lemma AggregateStep(m: map<AllocKey, Alloc>, ks: seq<AllocKey>, k: AllocKey, acc: Snapshot, s: Snapshot)
    requires forall i :: 0 <= i < |ks| ==> ks[i] in m
    requires k in m
    requires forall asid :: Summarises(m, ks, acc, asid)
    requires var d := if k.asid in acc.m then acc.m[k.asid] else Details(m[k].name, 0, 0);
      s == Put(acc, k.asid, d.(totalSize := d.totalSize + m[k].size, totalAllocs := d.totalAllocs + 1))
    ensures forall asid :: Summarises(m, ks + [k], s, asid)
  {
    var ks1 := ks + [k];
    forall asid
      ensures Summarises(m, ks1, s, asid)
    {
      assert Summarises(m, ks, acc, asid);
      SumSizesAppend(m, ks, k, asid);
      CountAllocsAppend(ks, k, asid);
      assert forall j :: 0 <= j < |ks| ==> ks1[j] == ks[j];
      assert ks1[|ks|] == k;
      if HasAsid(ks, asid) {
        var i := FirstOf(ks, asid);
        assert ks1[i] == ks[i];
        assert FirstOf(ks1, asid) == i;
      } else if k.asid == asid {
        AbsentSumsZero(m, ks, asid);
        assert FirstOf(ks1, asid) == |ks|;
      } else {
        assert forall j :: 0 <= j < |ks1| ==> ks1[j].asid != asid;
      }
    }
  }

  /** `report_allocs`: the snapshot of the live allocations. A process appears
      exactly when it has a live allocation; its name is that of its first
      allocation in iteration order, and its totals are the sum of its sizes
      and the number of its allocations. */
  function ReportAllocs(a: Allocs): (s: Snapshot)
    requires Valid(a)
    ensures Valid(s)
    ensures forall asid :: Summarises(a.m, a.order, s, asid)
  {
    Aggregate(a.m, a.order)
  }

  /** The tracker's global state: the live allocations, the snapshots so far
      and `BBE_CTR`. */
  datatype Tracker = Tracker(allocs: Allocs, recorded: seq<Snapshot>, ctr: nat)

  function NewTracker(): (t: Tracker)
    ensures Valid(t.allocs) && |t.allocs.m| == 0 && t.recorded == [] && t.ctr == 0
  {
    Tracker(Empty(), [], 0)
  }

  /** `report_every_1000`: counts the block, and on the thousandth takes a
      snapshot of the live allocations and restarts the count. */
  function ReportEvery1000(t: Tracker): (r: Tracker)
    requires Valid(t.allocs)
    ensures r.allocs == t.allocs
    ensures t.ctr < 1000 ==> r.ctr < 1000 && r.ctr == (t.ctr + 1) % 1000
    ensures (t.ctr + 1) % 1000 == 0 ==> r.recorded == t.recorded + [ReportAllocs(t.allocs)] && r.ctr == 0
    ensures (t.ctr + 1) % 1000 != 0 ==> r.recorded == t.recorded && r.ctr == t.ctr + 1
  {
    var c := t.ctr + 1;
    if c % 1000 == 0 then t.(recorded := t.recorded + [ReportAllocs(t.allocs)], ctr := 0)
    else t.(ctr := c)
  }

  /** What reaches the tracker from the guest: a returning malloc (user or
      kernel), a free, and the start of a basic block. */
  datatype Event =
    | Malloc(asid: nat, addr: nat, size: nat, name: Option<string>)
    | Free(asid: nat, addr: nat)
    | Block

  function Step(t: Tracker, e: Event): (r: Tracker)
    requires Valid(t.allocs)
    ensures Valid(r.allocs)
  {
    match e
    case Malloc(asid, addr, size, name) => t.(allocs := AddAlloc(t.allocs, addr, size, asid, name))
    case Free(asid, addr) => t.(allocs := RemAlloc(t.allocs, addr, asid))
    case Block => ReportEvery1000(t)
  }

  function Run(t: Tracker, es: seq<Event>): (r: Tracker)
    requires Valid(t.allocs)
    ensures Valid(r.allocs)
  {
    if |es| == 0 then t else Step(Run(t, es[..|es| - 1]), es[|es| - 1])
  }

  function Blocks(es: seq<Event>): nat {
    if |es| == 0 then 0 else Blocks(es[..|es| - 1]) + (if es[|es| - 1].Block? then 1 else 0)
  }

  /** After n basic blocks the counter is n mod 1000 (so it stays within
      0..999) and exactly n div 1000 snapshots have been taken, whatever
      the allocations did in between. */
  lemma {:induction false} CounterTracksBlocks(es: seq<Event>)
    ensures var t := Run(NewTracker(), es);
      t.ctr == Blocks(es) % 1000 && |t.recorded| == Blocks(es) / 1000
  {
    if |es| > 0 {
      CounterTracksBlocks(es[..|es| - 1]);
      RunCounts(es);
    }
  }

  lemma RunCounts(es: seq<Event>)
    requires |es| > 0
    requires var t := Run(NewTracker(), es[..|es| - 1]);
      t.ctr == Blocks(es[..|es| - 1]) % 1000 && |t.recorded| == Blocks(es[..|es| - 1]) / 1000
    ensures var t := Run(NewTracker(), es);
      t.ctr == Blocks(es) % 1000 && |t.recorded| == Blocks(es) / 1000
  {
    var prefix, e := es[..|es| - 1], es[|es| - 1];
    StepCounts(Run(NewTracker(), prefix), e, Blocks(prefix));
  }

  /** One event keeps the counter and the snapshot count in step with the
      number of blocks. */
  lemma StepCounts(t: Tracker, e: Event, n: nat)
    requires Valid(t.allocs) && t.ctr == n % 1000 && |t.recorded| == n / 1000
    ensures var n' := n + (if e.Block? then 1 else 0);
      Step(t, e).ctr == n' % 1000 && |Step(t, e).recorded| == n' / 1000
  {
    StepCounter(t, e);
    CounterStep(n);
  }

  /** The counter and the number of snapshots move only on a block. */
  lemma StepCounter(t: Tracker, e: Event)
    requires Valid(t.allocs) && t.ctr < 1000
    ensures Step(t, e).ctr == if e.Block? then (t.ctr + 1) % 1000 else t.ctr
    ensures |Step(t, e).recorded| == |t.recorded| + (if e.Block? && t.ctr + 1 == 1000 then 1 else 0)
  {
  }

  /** One more block moves the counter on by one modulo 1000 and completes a
      thousand when it wraps. */
  lemma CounterStep(n: nat)
    ensures (n % 1000 + 1) % 1000 == (n + 1) % 1000
    ensures n % 1000 + 1 == 1000 ==> (n + 1) / 1000 == n / 1000 + 1
    ensures n % 1000 + 1 != 1000 ==> (n + 1) / 1000 == n / 1000
  {
    var q, r := n / 1000, n % 1000;
    assert n == 1000 * q + r;
    if r + 1 == 1000 {
      ModUnique(n + 1, 1000, q + 1, 0);
    } else {
      ModUnique(n + 1, 1000, q, r + 1);
    }
  }
}
