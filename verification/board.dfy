/** The state every backend's call finder shares (`SwitchBoard`): its result
    cache, the first-block flag, the handle of the previously logged block and
    the run counters. */
module Board {
  import opened Wrappers
  import opened ByteFmt
  import opened Cache
  import opened RunStats

  datatype IR = Vex | Pcode | Bap

  /** `str(ir)`. */
  function IRName(ir: IR): string {
    match ir
    case Vex => "VEX"
    case Pcode => "PCODE"
    case Bap => "BAP"
  }

  /** `last_bbr` is a handle to a cache entry: `add` never replaces an entry,
      so the key names the very object the source holds a reference to. */
  datatype Board = Board(
    ir: IR,
    arch: Arch,
    cache: ResultCache,
    firstBb: bool,
    lastBbr: Option<Key>,
    stats: Stats)

  /** `SwitchBoard.__init__`. */
  function NewBoard(ir: IR, arch: Arch): (b: Board)
    ensures WellFormed(b)
    ensures b.ir == ir && b.arch == arch && b.firstBb && b.lastBbr.None?
    ensures |b.cache.entries| == 0 && b.stats == NewStats()
  {
    Board(ir, arch, EmptyCache(), true, None, NewStats())
  }

  /** What holds between calls: the cache is well formed and every verdict in
      it follows the correctness rule, all entries carry the board's
      architecture, and once a block has been logged the handle names an
      entry. Failure entries carry no predicted target. */
  ghost predicate WellFormed(b: Board) {
    && Valid(b.cache)
    && AllConsistent(b.cache)
    && (forall k :: k in b.cache.entries ==> b.cache.entries[k].arch == b.arch)
    && (forall k :: k in b.cache.entries && b.cache.entries[k].isLiftException ==> b.cache.entries[k].irDst.None?)
    && (b.lastBbr.Some? ==> b.lastBbr.value in b.cache.entries)
    && (!b.firstBb ==> b.lastBbr.Some?)
  }

  /** Stores a freshly built result for the block (`bb_result_cache.add` of a
      new `BBResult` with no ground truth yet). A failure entry never has a
      predicted target. */
  function Record(b: Board, addr: nat, bytes: seq<byte>, irDst: Option<int>, fail: bool): (r: Result<Board, Fatal>)
    ensures Key(addr, bytes) !in b.cache.entries ==>
      && r.Ok?
      && r.value.cache.entries == b.cache.entries[Key(addr, bytes) := NewResult(b.arch, addr, bytes, irDst, None, fail)]
      && r.value.cache.order == b.cache.order + [Key(addr, bytes)]
    ensures Valid(b.cache) && Key(addr, bytes) in b.cache.entries ==>
      var e := b.cache.entries[Key(addr, bytes)];
      (r.Ok? <==> e.arch == b.arch && e.irDst == irDst)
    ensures r.Ok? ==> r.value.(cache := b.cache) == b
    ensures Key(addr, bytes) in b.cache.entries && r.Ok? ==> r.value == b
    ensures r.Ok? && WellFormed(b) && (fail ==> irDst.None?) ==> WellFormed(r.value)
    ensures r.Err? ==> r.error == CacheInconsistent
  {
    var e := NewResult(b.arch, addr, bytes, irDst, None, fail);
    match Add(b.cache, e)
    case Ok(c) =>
      assert KeyOf(e) == Key(addr, bytes);
      Ok(b.(cache := c))
    case Err(f) => Err(f)
  }

  /** `log_fail`: a result with neither target and the failure flag set. */
  function LogFail(b: Board, addr: nat, bytes: seq<byte>): (r: Result<Board, Fatal>)
    ensures Key(addr, bytes) !in b.cache.entries ==>
      && r.Ok?
      && Key(addr, bytes) in r.value.cache.entries
      && var e := r.value.cache.entries[Key(addr, bytes)];
      && e.isLiftException && e.irDst.None? && e.trueDst.None? && e.isMiss.None?
      && (forall k :: k in b.cache.entries ==> k in r.value.cache.entries && r.value.cache.entries[k] == b.cache.entries[k])
    ensures r.Ok? ==> r.value.stats == b.stats && r.value.firstBb == b.firstBb && r.value.lastBbr == b.lastBbr
    ensures r.Ok? && WellFormed(b) ==> WellFormed(r.value)
  {
    Record(b, addr, bytes, None, true)
  }

  /** `update_acc_stats(true_dst)`: the previously logged block learns where
      execution went next. Its verdict becomes "miss" or "hit" by comparing
      with its predicted target, and stays as it was when there is none;
      every other entry, and everything else on the board, is unchanged. */
  function UpdateAccStats(b: Board, trueDst: int): (r: Board)
    requires b.lastBbr.Some? && b.lastBbr.value in b.cache.entries
    ensures r.(cache := b.cache) == b
    ensures r.cache.order == b.cache.order && r.cache.entries.Keys == b.cache.entries.Keys
    ensures forall k :: k in b.cache.entries && k != b.lastBbr.value ==> r.cache.entries[k] == b.cache.entries[k]
    ensures var e, e' := b.cache.entries[b.lastBbr.value], r.cache.entries[b.lastBbr.value];
      && SameCore(e, e') && e'.isLiftException == e.isLiftException
      && e'.trueDst == Some(trueDst)
      && (e.irDst.Some? ==> e'.isMiss == Some(e.irDst.value != trueDst))
      && (e.irDst.None? ==> e'.isMiss == e.isMiss)
    ensures WellFormed(b) ==> WellFormed(r)
  {
    var k := b.lastBbr.value;
    var e := b.cache.entries[k];
    var e1 := e.(trueDst := Some(trueDst));
    var e2 :=
      if e.irDst != None && e.irDst.value != trueDst then e1.(isMiss := Some(true))
      else if e.irDst != None && e.irDst.value == trueDst then e1.(isMiss := Some(false))
      else e1;
    b.(cache := ResultCache(b.cache.entries[k := e2], b.cache.order))
  }

  /** What every backend's `lift_block` guarantees on an uncached block when it
      does not abort: the block now has an entry, built by the `BBResult`
      constructor with no ground truth; no other entry changes; and the
      first-block flag and the handle are left alone. */
  ghost predicate LiftPost(b: Board, b': Board, k: Key) {
    && k in b'.cache.entries
    && b'.cache.entries.Keys == b.cache.entries.Keys + {k}
    && (forall k' :: k' in b.cache.entries ==> b'.cache.entries[k'] == b.cache.entries[k'])
    && b'.cache.entries[k].trueDst.None?
    && b'.ir == b.ir && b'.arch == b.arch
    && b'.firstBb == b.firstBb && b'.lastBbr == b.lastBbr
    && (WellFormed(b) ==> WellFormed(b'))
  }

  /** The counter increments one classified block contributes. */
  datatype Verdict = Verdict(target: Option<int>, imm: nat, reg: nat, ret: nat)

  const NoCall := Verdict(None, 0, 0, 0)

  /** Adds a verdict's increments to the call and return counters. */
  function Bump(s: Stats, v: Verdict): (s': Stats)
    ensures s'.bbCnt == s.bbCnt && s'.avgByteCnt == s.avgByteCnt && s'.avgLiftTime == s.avgLiftTime
    ensures s'.callImmCnt - s.callImmCnt == v.imm
    ensures s'.callRegCnt - s.callRegCnt == v.reg
    ensures s'.retCnt - s.retCnt == v.ret
  {
    s.(callImmCnt := s.callImmCnt + v.imm, callRegCnt := s.callRegCnt + v.reg, retCnt := s.retCnt + v.ret)
  }

  /** The common tail of a successful lift: the counted statistics, the
      verdict's counter increments and the result with the predicted target. */
  function Commit(b: Board, addr: nat, bytes: seq<byte>, s: Stats, v: Verdict): (r: Result<Board, Fatal>)
    requires Key(addr, bytes) !in b.cache.entries
    ensures r.Ok? && LiftPost(b, r.value, Key(addr, bytes))
    ensures r.value.stats == Bump(s, v)
    ensures var e := r.value.cache.entries[Key(addr, bytes)];
      e.irDst == v.target && !e.isLiftException
  {
    var b1 := b.(stats := Bump(s, v));
    assert WellFormed(b) ==> WellFormed(b1);
    Record(b1, addr, bytes, v.target, false)
  }

  /** A failure entry after the statistics have become `s`. */
  function CommitFail(b: Board, addr: nat, bytes: seq<byte>, s: Stats): (r: Result<Board, Fatal>)
    requires Key(addr, bytes) !in b.cache.entries
    ensures r.Ok? && LiftPost(b, r.value, Key(addr, bytes))
    ensures r.value.stats == s
    ensures var e := r.value.cache.entries[Key(addr, bytes)];
      e.irDst.None? && e.isLiftException
  {
    var b1 := b.(stats := s);
    assert WellFormed(b) ==> WellFormed(b1);
    LogFail(b1, addr, bytes)
  }
}
