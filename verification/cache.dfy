/** The per-backend result cache of the lifting evaluator: one `BBResult` per
    basic block, keyed by the block's start address and its exact bytes. */
module Cache {
  import opened Wrappers
  import opened ByteFmt
  import opened OrderedMap

  datatype Arch = I386 | X86_64 | Arm | Mips

  /** `str(arch)`, the name stored in every result. */
  function ArchName(a: Arch): string {
    match a
    case I386 => "i386"
    case X86_64 => "x86_64"
    case Arm => "arm"
    case Mips => "mips"
  }

  /** `(addr, bb_bytes)`: byte sequences compare by content. */
  datatype Key = Key(addr: nat, bytes: seq<byte>)

  /** One lifted block: the target the lifter predicted (`ir_dst`), the address
      execution actually reached next (`true_dst`), the three-valued verdict and
      whether lifting failed. */
  datatype BBResult = BBResult(
    arch: Arch,
    addr: nat,
    bytes: seq<byte>,
    irDst: Option<int>,
    trueDst: Option<int>,
    isMiss: Option<bool>,
    isLiftException: bool)

  function KeyOf(r: BBResult): Key {
    Key(r.addr, r.bytes)
  }

  /** The correctness rule: a verdict exists exactly when both targets are
      known, and it is a miss exactly when they differ. */
  predicate Consistent(r: BBResult) {
    && (r.isMiss == Some(true) <==> r.irDst.Some? && r.trueDst.Some? && r.irDst.value != r.trueDst.value)
    && (r.isMiss == Some(false) <==> r.irDst.Some? && r.trueDst.Some? && r.irDst.value == r.trueDst.value)
  }

  /** The `BBResult` constructor. */
  function NewResult(arch: Arch, addr: nat, bytes: seq<byte>, irDst: Option<int>, trueDst: Option<int>,
                     liftException: bool): (r: BBResult)
    ensures r.arch == arch && r.addr == addr && r.bytes == bytes
    ensures r.irDst == irDst && r.trueDst == trueDst && r.isLiftException == liftException
    ensures Consistent(r)
    ensures r.isMiss.None? <==> irDst.None? || trueDst.None?
  {
    assert irDst.Some? && trueDst.Some? ==> (irDst != trueDst <==> irDst.value != trueDst.value);
    var isMiss :=
      if irDst != None && trueDst != None && irDst != trueDst then Some(true)
      else if irDst != None && trueDst != None && irDst == trueDst then Some(false)
      else None;
    BBResult(arch, addr, bytes, irDst, trueDst, isMiss, liftException)
  }

  /** `BBResult.__eq__`: architecture, address, bytes and predicted target;
      the ground-truth fields and the failure flag are ignored. */
  predicate SameCore(a: BBResult, b: BBResult) {
    a.arch == b.arch && a.addr == b.addr && a.bytes == b.bytes && a.irDst == b.irDst
  }

  /** The cache: a dictionary from keys to results, with its insertion order
      (Python dictionaries iterate in insertion order). */
  datatype ResultCache = ResultCache(entries: map<Key, BBResult>, order: seq<Key>)

  ghost predicate Valid(c: ResultCache) {
    && Distinct(c.order)
    && (forall k :: k in c.entries <==> k in c.order)
    && (forall k :: k in c.entries ==> KeyOf(c.entries[k]) == k)
  }

  predicate AllConsistent(c: ResultCache) {
    forall k :: k in c.entries ==> Consistent(c.entries[k])
  }

  function EmptyCache(): (c: ResultCache)
    ensures Valid(c) && AllConsistent(c) && |c.entries| == 0
  {
    ResultCache(map[], [])
  }

  /** `BBResultCache.add`: inserts a result under a new key; under a present
      key it keeps the stored entry and aborts unless the two are equal in the
      sense of `__eq__`. */
  function Add(c: ResultCache, r: BBResult): (res: Result<ResultCache, Fatal>)
    ensures KeyOf(r) !in c.entries ==>
      && res.Ok?
      && res.value.entries.Keys == c.entries.Keys + {KeyOf(r)}
      && res.value.entries[KeyOf(r)] == r
      && (forall k :: k in c.entries ==> res.value.entries[k] == c.entries[k])
      && res.value.order == c.order + [KeyOf(r)]
    ensures KeyOf(r) in c.entries ==>
      && (res.Ok? <==> SameCore(c.entries[KeyOf(r)], r))
      && (res.Ok? ==> res.value == c)
    ensures res.Err? ==> res.error == CacheInconsistent
    ensures Valid(c) && res.Ok? ==> Valid(res.value)
  {
    var key := KeyOf(r);
    if key in c.entries then
      if SameCore(c.entries[key], r) then Ok(c) else Err(CacheInconsistent)
    else
      Ok(ResultCache(c.entries[key := r], c.order + [key]))
  }

  /** Adding a result twice, or adding any result equal to it in the sense of
      `__eq__` afterwards, leaves the cache as the first addition left it. */
  lemma AddIdempotent(c: ResultCache, r: BBResult, r': BBResult)
    requires Add(c, r).Ok?
    requires SameCore(r, r')
    ensures Add(Add(c, r).value, r') == Add(c, r)
  {
  }

  /** `BBResultCache.get_result`: exact lookup by address and bytes. */
  function Get(c: ResultCache, addr: nat, bytes: seq<byte>): (r: Option<BBResult>)
    ensures r.Some? <==> Key(addr, bytes) in c.entries
    ensures r.Some? ==> r.value == c.entries[Key(addr, bytes)]
    ensures Valid(c) && r.Some? ==> r.value.addr == addr && r.value.bytes == bytes
  {
    var key := Key(addr, bytes);
    if key in c.entries then Some(c.entries[key]) else None
  }

  /** Two blocks at one address with different bytes (or the same bytes at two
      addresses) occupy two entries. */
  lemma {:induction false} KeySensitivity(c: ResultCache, r1: BBResult, r2: BBResult)
    requires KeyOf(r1) !in c.entries && KeyOf(r2) !in c.entries
    requires r1.addr != r2.addr || r1.bytes != r2.bytes
    ensures Add(c, r1).Ok? && Add(Add(c, r1).value, r2).Ok?
    ensures var c2 := Add(Add(c, r1).value, r2).value;
      && Get(c2, r1.addr, r1.bytes) == Some(r1)
      && Get(c2, r2.addr, r2.bytes) == Some(r2)
      && |c2.entries| == |c.entries| + 2
  {
    var c1 := Add(c, r1).value;
    assert KeyOf(r1) != KeyOf(r2);
    var c2 := Add(c1, r2).value;
    assert c1.entries.Keys == c.entries.Keys + {KeyOf(r1)};
    assert c2.entries.Keys == c1.entries.Keys + {KeyOf(r2)};
    assert |c1.entries.Keys| == |c.entries.Keys| + 1;
    assert |c2.entries.Keys| == |c1.entries.Keys| + 1;
  }

  function FinalizeEntry(e: BBResult): BBResult {
    if e.irDst != None && e.trueDst != None && e.irDst == e.trueDst then e.(isMiss := Some(false)) else e
  }

  /** `BBResultCache.finalize`: marks as hits the entries whose predicted and
      true targets are both known and equal; it touches nothing else. */
  function Finalize(c: ResultCache): (r: ResultCache)
    ensures r.order == c.order && r.entries.Keys == c.entries.Keys
    ensures forall k :: k in c.entries ==>
      var e, e' := c.entries[k], r.entries[k];
      || e' == e
      || (e.irDst.Some? && e.trueDst.Some? && e.irDst == e.trueDst && e' == e.(isMiss := Some(false)))
    ensures forall k :: k in c.entries ==>
      var e' := r.entries[k];
      e'.irDst.Some? && e'.trueDst.Some? && e'.irDst == e'.trueDst ==> e'.isMiss == Some(false)
    ensures Valid(c) ==> Valid(r)
  {
    ResultCache(map k | k in c.entries :: FinalizeEntry(c.entries[k]), c.order)
  }

  lemma FinalizeIdempotent(c: ResultCache)
    ensures Finalize(Finalize(c)) == Finalize(c)
  {
    var f := Finalize(c);
    var ff := Finalize(f);
    assert ff.entries == f.entries by {
      forall k | k in f.entries
        ensures ff.entries[k] == f.entries[k]
      {
        assert ff.entries[k] == FinalizeEntry(f.entries[k]);
      }
    }
  }

  /** On a cache whose verdicts already follow the correctness rule,
      `finalize` changes nothing: labelling has done its work already. */
  lemma FinalizeConsistent(c: ResultCache)
    requires AllConsistent(c)
    ensures Finalize(c) == c
  {
    var f := Finalize(c);
    assert f.entries == c.entries by {
      forall k | k in c.entries
        ensures f.entries[k] == c.entries[k]
      {
        assert f.entries[k] == FinalizeEntry(c.entries[k]);
      }
    }
  }

  /** The three filtered views: hits (`is_miss == False`), misses
      (`is_miss == True`) and lift failures. */
  datatype View = Hits | Misses | Fails

  predicate InView(v: View, e: BBResult) {
    match v
    case Hits => e.isMiss == Some(false)
    case Misses => e.isMiss == Some(true)
    case Fails => e.isLiftException
  }

  /** The keys of `ks`, in order, whose entries are in view `v`. */
  function Select(entries: map<Key, BBResult>, ks: seq<Key>, v: View): (r: seq<Key>)
    requires forall k :: k in ks ==> k in entries
    ensures forall k :: k in r <==> k in ks && InView(v, entries[k])
    ensures Distinct(ks) ==> Distinct(r)
    ensures SubseqOf(r, ks)
    decreases |ks|
  {
    if |ks| == 0 then []
    else
      var rest := Select(entries, ks[1..], v);
      assert forall k :: k in ks[1..] ==> k in ks;
      if InView(v, entries[ks[0]]) then
        assert Distinct(ks) ==> ks[0] !in ks[1..] by {
          if Distinct(ks) {
            forall i | 0 <= i < |ks[1..]| ensures ks[1..][i] != ks[0] {
              assert ks[1..][i] == ks[i + 1];
            }
          }
        }
        assert ([ks[0]] + rest)[1..] == rest;
        [ks[0]] + rest
      else rest
  }

  /** The keys of the entries a `get_*_list` call returns, in insertion order,
      read after the `finalize` pass it performs. */
  function ViewKeys(c: ResultCache, v: View): (r: seq<Key>)
    requires Valid(c)
    ensures forall k :: k in r <==> k in c.entries && InView(v, Finalize(c).entries[k])
    ensures Distinct(r) && SubseqOf(r, c.order)
  {
    Select(Finalize(c).entries, c.order, v)
  }

  /** `get_hit_list` / `get_miss_list` / `get_fail_list`: the cache after the
      `finalize` pass, and the entries of that cache in the view. */
  function GetList(c: ResultCache, v: View): (r: (ResultCache, seq<BBResult>))
    requires Valid(c)
    ensures r.0 == Finalize(c)
    ensures |r.1| == |ViewKeys(c, v)|
    ensures forall i :: 0 <= i < |r.1| ==> r.1[i] == r.0.entries[ViewKeys(c, v)[i]]
    ensures forall e :: e in r.1 ==> InView(v, e) && KeyOf(e) in c.entries && r.0.entries[KeyOf(e)] == e
    ensures forall k :: k in c.entries && InView(v, r.0.entries[k]) ==> r.0.entries[k] in r.1
  {
    var f := Finalize(c);
    var ks := ViewKeys(c, v);
    var list := seq(|ks|, i requires 0 <= i < |ks| => f.entries[ks[i]]);
    assert forall k :: k in c.entries && InView(v, f.entries[k]) ==> f.entries[k] in list by {
      forall k | k in c.entries && InView(v, f.entries[k]) ensures f.entries[k] in list {
        var i :| 0 <= i < |ks| && ks[i] == k;
        assert list[i] == f.entries[k];
      }
    }
    (f, list)
  }

  /** The hit and miss lists are disjoint; on a cache whose verdicts follow the
      correctness rule they split exactly the entries with both targets known,
      by whether the targets agree; the fail list is exactly the failures. */
  lemma {:induction false} HitMissPartition(c: ResultCache, k: Key)
    requires Valid(c) && k in c.entries
    ensures !(k in ViewKeys(c, Hits) && k in ViewKeys(c, Misses))
    ensures k in ViewKeys(c, Fails) <==> c.entries[k].isLiftException
    ensures AllConsistent(c) ==>
      var e := c.entries[k];
      && (k in ViewKeys(c, Hits) <==> e.irDst.Some? && e.trueDst.Some? && e.irDst.value == e.trueDst.value)
      && (k in ViewKeys(c, Misses) <==> e.irDst.Some? && e.trueDst.Some? && e.irDst.value != e.trueDst.value)
  {
    var e := c.entries[k];
    var f := Finalize(c).entries[k];
    assert f == FinalizeEntry(e);
    assert k in ViewKeys(c, Hits) <==> f.isMiss == Some(false);
    assert k in ViewKeys(c, Misses) <==> f.isMiss == Some(true);
    assert k in ViewKeys(c, Fails) <==> f.isLiftException;
    if AllConsistent(c) {
      assert Consistent(e);
      assert f == e;
    }
  }

  /** `{:016x}` of an optional target in `to_str_dict`: the string `"None"`, or
      a one-element tuple holding the hexadecimal rendering. */
  datatype Rendered = Text(s: string) | Tuple1(s: string)

  function OptIntToStr(v: Option<int>): (r: Rendered)
    ensures v.None? <==> r == Text("None")
    ensures v.Some? ==> r.Tuple1? && IsHex16Of(v.value, r.s)
    ensures v.Some? && 0 <= v.value < 0x1_0000_0000_0000_0000 ==> |r.s| == 16
  {
    match v
    case None => Text("None")
    case Some(x) => Tuple1(Hex16(x))
  }

  /** The record `BBResult.to_str_dict` builds. */
  datatype StrDict = StrDict(arch: string, addr: string, irDst: Rendered, trueDst: Rendered, bytes: string)

  /** `BBResult.to_str_dict`: every field can be read back from its
      rendering; the address and targets are `{:016x}` renderings, and
      addresses below 2^64 take exactly 16 digits. */
  function ToStrDict(e: BBResult): (d: StrDict)
    ensures d.arch == ArchName(e.arch)
    ensures IsHex16Of(e.addr, d.addr)
    ensures e.addr < 0x1_0000_0000_0000_0000 ==> |d.addr| == 16
    ensures e.irDst.None? <==> d.irDst == Text("None")
    ensures e.trueDst.None? <==> d.trueDst == Text("None")
    ensures e.irDst.Some? ==> d.irDst.Tuple1? && IsHex16Of(e.irDst.value, d.irDst.s)
    ensures e.trueDst.Some? ==> d.trueDst.Tuple1? && IsHex16Of(e.trueDst.value, d.trueDst.s)
    ensures ParseByteStr(d.bytes) == Some(e.bytes)
    ensures |e.bytes| == 0 ==> d.bytes == Sep
    ensures |e.bytes| > 0 ==> |d.bytes| == 4 * |e.bytes|
  {
    StrDict(ArchName(e.arch), Hex16(e.addr), OptIntToStr(e.irDst), OptIntToStr(e.trueDst), ByteStr(e.bytes))
  }
}
