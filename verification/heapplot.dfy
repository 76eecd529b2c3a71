/** The data behind the heap tracker's two figures: one series per process
    over all snapshots, and the legend label of each series. Drawing and
    saving the figure are not modelled. */
module HeapPlot {
  import opened Wrappers
  import opened ByteFmt
  import opened OrderedMap
  import opened HeapTracker

  /** The two plotted properties: `'total_allocs'` and `'total_size'`. */
  datatype Prop = TotalAllocs | TotalSize

  /** A process name or legend label; `None` draws a line without one. */
  type Label = Option<string>

  function PropValue(d: Details, p: Prop): nat {
    match p
    case TotalAllocs => d.totalAllocs
    case TotalSize => d.totalSize
  }

  /** The process shows up in some snapshot before position `t`. */
  ghost predicate SeenBefore(rs: seq<Snapshot>, t: nat, asid: nat)
    requires t <= |rs|
  {
    exists t' :: 0 <= t' < t && asid in rs[t'].m
  }

  /** `t` is the first snapshot the process shows up in. */
  ghost predicate FirstSeenAt(rs: seq<Snapshot>, asid: nat, t: nat) {
    && t < |rs| && asid in rs[t].m
    && forall t' :: 0 <= t' < t ==> asid !in rs[t'].m
  }

  /** The recorded name is the one from the process's first snapshot. */
  ghost predicate NamedFromFirst(rs: seq<Snapshot>, names: map<nat, Label>, asid: nat)
    requires asid in names
  {
    exists t: nat :: FirstSeenAt(rs, asid, t) && names[asid] == rs[t].m[asid].name
  }

  /** The first loop over `recorded_results`: every process met gets a
      series of zeros as long as the recording and the name it has in the
      first snapshot it appears in. */
  method Discover(rs: seq<Snapshot>) returns (series: OMap<nat, seq<nat>>, names: map<nat, Label>)
    requires forall t :: 0 <= t < |rs| ==> Valid(rs[t])
    ensures Valid(series) && series.m.Keys == names.Keys
    ensures forall asid :: asid in series.m <==> SeenBefore(rs, |rs|, asid)
    ensures forall asid :: asid in series.m ==> series.m[asid] == Repeat(0 as nat, |rs|)
    ensures forall asid :: asid in names ==> NamedFromFirst(rs, names, asid)
  {
    series := Empty();
    names := map[];
    var t := 0;
    while t < |rs|
      invariant 0 <= t <= |rs|
      invariant Valid(series) && series.m.Keys == names.Keys
      invariant forall asid :: asid in series.m <==> SeenBefore(rs, t, asid)
      invariant forall asid :: asid in series.m ==> series.m[asid] == Repeat(0 as nat, |rs|)
      invariant forall asid :: asid in names ==> NamedFromFirst(rs, names, asid)
    {
      series, names := DiscoverSnapshot(rs, t, series, names);
      t := t + 1;
    }
  }

  /** One pass of the outer loop: the processes of snapshot `t` not seen
      before get a zero series and the name they carry there. */
  method DiscoverSnapshot(rs: seq<Snapshot>, t: nat, series0: OMap<nat, seq<nat>>, names0: map<nat, Label>)
    returns (series: OMap<nat, seq<nat>>, names: map<nat, Label>)
    requires t < |rs| && forall t' :: 0 <= t' < |rs| ==> Valid(rs[t'])
    requires Valid(series0) && series0.m.Keys == names0.Keys
    requires forall asid :: asid in series0.m <==> SeenBefore(rs, t, asid)
    requires forall asid :: asid in series0.m ==> series0.m[asid] == Repeat(0 as nat, |rs|)
    requires forall asid :: asid in names0 ==> NamedFromFirst(rs, names0, asid)
    ensures Valid(series) && series.m.Keys == names.Keys
    ensures forall asid :: asid in series.m <==> SeenBefore(rs, t + 1, asid)
    ensures forall asid :: asid in series.m ==> series.m[asid] == Repeat(0 as nat, |rs|)
    ensures forall asid :: asid in names ==> NamedFromFirst(rs, names, asid)
  {
    series, names := series0, names0;
    var snap := rs[t];
    var j := 0;
    while j < |snap.order|
      invariant 0 <= j <= |snap.order|
      invariant Valid(series) && series.m.Keys == names.Keys
      invariant forall asid :: asid in series.m <==> SeenBefore(rs, t, asid) || asid in snap.order[..j]
      invariant forall asid :: asid in series.m ==> series.m[asid] == Repeat(0 as nat, |rs|)
      invariant forall asid :: asid in names ==> NamedFromFirst(rs, names, asid)
    {
      assert snap.order[..j + 1] == snap.order[..j] + [snap.order[j]];
      series, names := DiscoverProcess(rs, t, snap.order[..j], snap.order[j], series, names);
      j := j + 1;
    }
    assert snap.order[..j] == snap.order;
    assert forall asid :: SeenBefore(rs, t + 1, asid) <==> SeenBefore(rs, t, asid) || asid in snap.m;
  }

  /** One pass of the inner loop, after the processes `done` of snapshot
      `t`: a process not met before gets a zero series and its name. */
  method DiscoverProcess(rs: seq<Snapshot>, t: nat, done: seq<nat>, asid: nat,
                         series0: OMap<nat, seq<nat>>, names0: map<nat, Label>)
    returns (series: OMap<nat, seq<nat>>, names: map<nat, Label>)
    requires t < |rs| && asid in rs[t].m
    requires Valid(series0) && series0.m.Keys == names0.Keys
    requires forall a :: a in series0.m <==> SeenBefore(rs, t, a) || a in done
    requires forall a :: a in series0.m ==> series0.m[a] == Repeat(0 as nat, |rs|)
    requires forall a :: a in names0 ==> NamedFromFirst(rs, names0, a)
    ensures Valid(series) && series.m.Keys == names.Keys
    ensures forall a :: a in series.m <==> SeenBefore(rs, t, a) || a in done + [asid]
    ensures forall a :: a in series.m ==> series.m[a] == Repeat(0 as nat, |rs|)
    ensures forall a :: a in names ==> NamedFromFirst(rs, names, a)
  {
    series, names := series0, names0;
    if asid !in series.m {
      assert FirstSeenAt(rs, asid, t);
      series := Put(series, asid, Repeat(0 as nat, |rs|));
      names := names[asid := rs[t].m[asid].name];
      assert NamedFromFirst(rs, names, asid);
    }
  }

  /** Entry `t` of the process's series: the property's value in snapshot
      `t`, or 0 when the process is absent there. */
  function Expected(rs: seq<Snapshot>, prop: Prop, asid: nat, t: nat): nat
    requires t < |rs|
  {
    if asid in rs[t].m then PropValue(rs[t].m[asid], prop) else 0
  }

  ghost predicate FilledUpTo(rs: seq<Snapshot>, prop: Prop, s: seq<nat>, asid: nat, t: nat)
    requires |s| == |rs| && t <= |rs|
  {
    && (forall t' :: 0 <= t' < t ==> s[t'] == Expected(rs, prop, asid, t'))
    && (forall t' :: t <= t' < |rs| ==> s[t'] == 0)
  }

  /** The second loop: each process's series takes the property's value at
      every snapshot that lists it. */
  method Fill(rs: seq<Snapshot>, prop: Prop, zeros: OMap<nat, seq<nat>>) returns (series: OMap<nat, seq<nat>>)
    requires forall t :: 0 <= t < |rs| ==> Valid(rs[t])
    requires forall t, asid :: 0 <= t < |rs| && asid in rs[t].m ==> asid in zeros.m
    requires forall asid :: asid in zeros.m ==> zeros.m[asid] == Repeat(0 as nat, |rs|)
    ensures series.m.Keys == zeros.m.Keys && series.order == zeros.order
    ensures forall asid :: asid in series.m ==> |series.m[asid]| == |rs|
    ensures forall asid, t :: asid in series.m && 0 <= t < |rs| ==>
      series.m[asid][t] == Expected(rs, prop, asid, t)
  {
    series := zeros;
    var t := 0;
    while t < |rs|
      invariant 0 <= t <= |rs|
      invariant series.m.Keys == zeros.m.Keys && series.order == zeros.order
      invariant forall asid :: asid in series.m ==> |series.m[asid]| == |rs|
      invariant forall asid :: asid in series.m ==> FilledUpTo(rs, prop, series.m[asid], asid, t)
    {
      series := FillSnapshot(rs, prop, t, series);
      t := t + 1;
    }
  }

  /** One pass of the second loop's inner loop: snapshot `t` writes entry `t`
      of each listed process's series. */
  method FillSnapshot(rs: seq<Snapshot>, prop: Prop, t: nat, before: OMap<nat, seq<nat>>)
    returns (series: OMap<nat, seq<nat>>)
    requires t < |rs| && Valid(rs[t])
    requires forall asid :: asid in rs[t].m ==> asid in before.m
    requires forall asid :: asid in before.m ==> |before.m[asid]| == |rs|
    requires forall asid :: asid in before.m ==> FilledUpTo(rs, prop, before.m[asid], asid, t)
    ensures series.m.Keys == before.m.Keys && series.order == before.order
    ensures forall asid :: asid in series.m ==> |series.m[asid]| == |rs|
    ensures forall asid :: asid in series.m ==> FilledUpTo(rs, prop, series.m[asid], asid, t + 1)
  {
    series := before;
    var snap := rs[t];
    var j := 0;
    while j < |snap.order|
      invariant 0 <= j <= |snap.order|
      invariant series.m.Keys == before.m.Keys && series.order == before.order
      invariant forall asid :: asid in series.m ==> |series.m[asid]| == |rs|
      invariant forall asid :: asid in series.m ==>
        if asid in snap.order[..j] then
          FilledUpTo(rs, prop, series.m[asid][t := 0], asid, t) && series.m[asid][t] == Expected(rs, prop, asid, t)
        else FilledUpTo(rs, prop, series.m[asid], asid, t)
    {
      var asid := snap.order[j];
      assert snap.order[..j + 1] == snap.order[..j] + [asid];
      var old_s := series.m[asid];
      var s' := old_s[t := PropValue(snap.m[asid], prop)];
      assert asid !in snap.order[..j];
      assert FilledUpTo(rs, prop, s'[t := 0], asid, t) by {
        assert s'[t := 0] == old_s;
      }
      series := Put(series, asid, s');
      j := j + 1;
    }
    assert snap.order[..j] == snap.order;
    forall asid | asid in series.m
      ensures FilledUpTo(rs, prop, series.m[asid], asid, t + 1)
    {
      var s := series.m[asid];
      if asid in snap.order {
        assert s == s[t := 0][t := s[t]];
      }
    }
  }

  /** Both loops together: a series per process seen in any snapshot, as long as
      the recording, holding the property where the process is listed and
      0 elsewhere, and the name from the process's first snapshot. */
  method BuildSeries(rs: seq<Snapshot>, prop: Prop) returns (series: OMap<nat, seq<nat>>, names: map<nat, Label>)
    requires forall t :: 0 <= t < |rs| ==> Valid(rs[t])
    ensures Valid(series) && series.m.Keys == names.Keys
    ensures forall asid :: asid in series.m <==> SeenBefore(rs, |rs|, asid)
    ensures forall asid :: asid in series.m ==> |series.m[asid]| == |rs|
    ensures forall asid, t :: asid in series.m && 0 <= t < |rs| ==>
      series.m[asid][t] == Expected(rs, prop, asid, t)
    ensures forall asid :: asid in names ==> NamedFromFirst(rs, names, asid)
  {
    var zeros;
    zeros, names := Discover(rs);
    assert forall t, asid :: 0 <= t < |rs| && asid in rs[t].m ==> SeenBefore(rs, |rs|, asid);
    series := Fill(rs, prop, zeros);
  }

  /** The legend label of a series: `"Kernel"` for asid 0, the recorded name
      when there is one, `hex(asid)` otherwise. A `None` name gives a line
      without a label. */
  function Legend(asid: nat, names: map<nat, Label>): (l: Label)
    ensures asid == 0 ==> l == Some("Kernel")
    ensures asid != 0 && asid in names ==> l == names[asid]
    ensures asid != 0 && asid !in names ==> l == Some(PyHex(asid))
  {
    if asid == 0 then Some("Kernel")
    else if asid in names then names[asid]
    else Some(PyHex(asid))
  }

  /** The `hex(asid)` fallback never fires: every plotted process has its
      name from the first snapshot it appears in. */
  lemma LegendFromFirstSnapshot(rs: seq<Snapshot>, series: OMap<nat, seq<nat>>,
                                names: map<nat, Label>, asid: nat)
    requires series.m.Keys == names.Keys
    requires forall a :: a in names ==> NamedFromFirst(rs, names, a)
    requires asid in series.m && asid != 0
    ensures exists t: nat :: FirstSeenAt(rs, asid, t) && Legend(asid, names) == rs[t].m[asid].name
  {
    assert NamedFromFirst(rs, names, asid);
  }
}
