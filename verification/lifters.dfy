/** The three backends' `lift_block` over abstracted lifter output. Each one
    does nothing on a cached block; otherwise it counts the lift, classifies
    the block's control transfer and stores one result for it. */
module Lifters {
  import opened Wrappers
  import opened ByteFmt
  import opened Cache
  import opened RunStats
  import opened Signed
  import opened Board

  // ---------------------------------------------------------------- VEX

  datatype JumpKind = IjkCall | IjkRet | IjkOther

  /** The class of an IRSB's `next` expression. */
  datatype NextExpr = Const(value: nat) | RdTmp | OtherExpr

  /** What `SBVex.lift_block` reads of the IRSB pyvex returns. */
  datatype VexIrsb = VexIrsb(stmtCount: nat, jumpkind: JumpKind, next: NextExpr)

  /** The classification of a non-empty IRSB: a call through a constant is an
      immediate call to that constant, a call through a temporary is a
      register call, a return is a return; a call through anything else
      aborts. */
  function VexVerdict(irsb: VexIrsb): (r: Result<Verdict, Fatal>)
    ensures r.Err? <==> irsb.jumpkind == IjkCall && irsb.next.OtherExpr?
    ensures r.Err? ==> r.error == VexCallTarget
    ensures r.Ok? ==> r.value.imm + r.value.reg + r.value.ret <= 1
    ensures r.Ok? ==> (r.value.imm == 1 <==> irsb.jumpkind == IjkCall && irsb.next.Const?)
    ensures r.Ok? ==> (r.value.reg == 1 <==> irsb.jumpkind == IjkCall && irsb.next == RdTmp)
    ensures r.Ok? ==> (r.value.ret == 1 <==> irsb.jumpkind == IjkRet)
    ensures r.Ok? ==> (r.value.target.Some? <==> r.value.imm == 1)
    ensures r.Ok? && r.value.target.Some? ==> irsb.next.Const? && irsb.next.value == r.value.target.value
  {
    match irsb.jumpkind
    case IjkCall =>
      (match irsb.next
       case Const(v) => Ok(Verdict(Some(v), 1, 0, 0))
       case RdTmp => Ok(Verdict(None, 0, 1, 0))
       case OtherExpr => Err(VexCallTarget))
    case IjkRet => Ok(Verdict(None, 0, 0, 1))
    case IjkOther => Ok(NoCall)
  }

  /** `SBVex.lift_block`: the lift is counted first; an IRSB without
      statements becomes a failure entry; a failed running-mean assertion or
      an unexpected call target aborts. */
  function VexLift(b: Board, addr: nat, bytes: seq<byte>, irsb: VexIrsb, liftTime: real): (r: Result<Board, Fatal>)
    ensures Key(addr, bytes) in b.cache.entries ==> r == Ok(b)
    ensures Key(addr, bytes) !in b.cache.entries ==>
      var u := UpdateRunStats(b.stats, liftTime, |bytes|);
      var s, ok := u.0, u.1;
      && (r.Err? <==> !ok || (irsb.stmtCount > 0 && VexVerdict(irsb).Err?))
      && (r.Err? ==> r.error != CacheInconsistent)
      && (r.Ok? ==>
            && LiftPost(b, r.value, Key(addr, bytes))
            && var e := r.value.cache.entries[Key(addr, bytes)];
            && (e.isLiftException <==> irsb.stmtCount == 0)
            && (irsb.stmtCount == 0 ==> r.value.stats == s && e.irDst.None?)
            && (irsb.stmtCount > 0 ==>
                  && r.value.stats == Bump(s, VexVerdict(irsb).value)
                  && e.irDst == VexVerdict(irsb).value.target))
  {
    if Key(addr, bytes) in b.cache.entries then Ok(b)
    else
      var (s, ok) := UpdateRunStats(b.stats, liftTime, |bytes|);
      if !ok then Err(RunStatsReset)
      else if irsb.stmtCount == 0 then CommitFail(b, addr, bytes, s)
      else
        match VexVerdict(irsb)
        case Err(f) => Err(f)
        case Ok(v) => Commit(b, addr, bytes, s, v)
  }

  // ---------------------------------------------------------------- P-code

  datatype OpName = OpCall | OpCallInd | OpReturn | OpOther

  /** A P-code operation: its opcode and the offset of its first input. */
  datatype PcodeOp = PcodeOp(name: OpName, input0: nat)

  /** One decoded machine instruction is a sequence of operations; `None`
      stands for an instruction whose decoding raises. */
  type Insn = Option<seq<PcodeOp>>

  predicate IsStop(op: PcodeOp) {
    op.name != OpOther
  }

  predicate Stops(ops: seq<PcodeOp>) {
    exists i :: 0 <= i < |ops| && IsStop(ops[i])
  }

  /** The instructions before index `i` decoded and hold no call or return. */
  predicate QuietBefore(insns: seq<Insn>, i: nat)
    requires i <= |insns|
  {
    forall j :: 0 <= j < i ==> insns[j].Some? && !Stops(insns[j].value)
  }

  /** How the instruction walk ends. */
  datatype Scan = DecodeError | Stopped(ops: seq<PcodeOp>) | RanOut

  /** The `while addr < lastaddr` walk: it decodes instructions in order and
      stops at the first one that raises or holds a call or return. */
  function PcodeScan(insns: seq<Insn>): (r: Scan)
    ensures r.Stopped? ==> Stops(r.ops)
    decreases |insns|
  {
    if |insns| == 0 then RanOut
    else
      match insns[0]
      case None => DecodeError
      case Some(ops) => if Stops(ops) then Stopped(ops) else PcodeScan(insns[1..])
  }

  /** The walk's outcome is decided by the first instruction that raises or
      holds a call or return, and it runs out exactly when there is none. */
  lemma {:induction false} PcodeScanFirst(insns: seq<Insn>)
    ensures PcodeScan(insns) == RanOut <==> QuietBefore(insns, |insns|)
    ensures PcodeScan(insns) != RanOut ==>
      exists i :: 0 <= i < |insns| && QuietBefore(insns, i) &&
        (if insns[i].None? then PcodeScan(insns) == DecodeError else PcodeScan(insns) == Stopped(insns[i].value))
    decreases |insns|
  {
    if |insns| > 0 {
      assert QuietBefore(insns, 0);
      if insns[0].Some? && !Stops(insns[0].value) {
        var rest := insns[1..];
        PcodeScanFirst(rest);
        forall i | 0 <= i <= |rest|
          ensures QuietBefore(rest, i) <==> QuietBefore(insns, i + 1)
        {
          if QuietBefore(rest, i) {
            forall j | 0 <= j < i + 1 ensures insns[j].Some? && !Stops(insns[j].value) {
              if j > 0 { assert insns[j] == rest[j - 1]; }
            }
          }
          if QuietBefore(insns, i + 1) {
            forall j | 0 <= j < i ensures rest[j].Some? && !Stops(rest[j].value) {
              assert rest[j] == insns[j + 1];
            }
          }
        }
        if PcodeScan(rest) != RanOut {
          var i :| 0 <= i < |rest| && QuietBefore(rest, i) &&
            (if rest[i].None? then PcodeScan(rest) == DecodeError else PcodeScan(rest) == Stopped(rest[i].value));
          assert insns[i + 1] == rest[i];
          assert QuietBefore(insns, i + 1);
        }
      } else {
        assert !QuietBefore(insns, |insns|);
      }
    }
  }

  /** Instructions after the one that ends the walk are never decoded: any
      suffix may follow without changing the outcome. */
  lemma {:induction false} PcodeScanIgnoresSuffix(insns: seq<Insn>, rest: seq<Insn>)
    requires PcodeScan(insns) != RanOut
    ensures PcodeScan(insns + rest) == PcodeScan(insns)
    decreases |insns|
  {
    assert (insns + rest)[0] == insns[0];
    if insns[0].Some? && !Stops(insns[0].value) {
      assert (insns + rest)[1..] == insns[1..] + rest;
      PcodeScanIgnoresSuffix(insns[1..], rest);
    }
  }

  function Names(ops: seq<PcodeOp>): (ns: seq<OpName>)
    ensures |ns| == |ops| && forall i :: 0 <= i < |ops| ==> ns[i] == ops[i].name
  {
    seq(|ops|, i requires 0 <= i < |ops| => ops[i].name)
  }

  /** How many operations of the instruction have opcode `n`. */
  function CountOps(ops: seq<PcodeOp>, n: OpName): (c: nat)
    ensures c == multiset(Names(ops))[n]
    ensures c == 0 <==> forall i :: 0 <= i < |ops| ==> ops[i].name != n
    decreases |ops|
  {
    if |ops| == 0 then 0
    else
      var init := ops[..|ops| - 1];
      assert Names(ops) == Names(init) + [ops[|ops| - 1].name];
      assert forall i :: 0 <= i < |init| ==> init[i] == ops[i];
      CountOps(init, n) + (if ops[|ops| - 1].name == n then 1 else 0)
  }

  /** The first input of the instruction's last `CALL`: each `CALL` the loop
      meets overwrites the target. */
  function LastCallTarget(ops: seq<PcodeOp>): (t: Option<nat>)
    ensures t.None? <==> forall i :: 0 <= i < |ops| ==> ops[i].name != OpCall
    ensures t.Some? ==>
      exists i :: 0 <= i < |ops| && ops[i] == PcodeOp(OpCall, t.value) &&
        (forall j :: i < j < |ops| ==> ops[j].name != OpCall)
    decreases |ops|
  {
    if |ops| == 0 then None
    else
      var last := ops[|ops| - 1];
      var init := ops[..|ops| - 1];
      assert forall i :: 0 <= i < |init| ==> init[i] == ops[i];
      if last.name == OpCall then Some(last.input0) else LastCallTarget(init)
  }

  /** Every call or return operation of the stopping instruction bumps its
      counter, and the target is the last `CALL`'s. */
  function PcodeVerdict(ops: seq<PcodeOp>): (v: Verdict)
    ensures v.imm == CountOps(ops, OpCall) && v.reg == CountOps(ops, OpCallInd) && v.ret == CountOps(ops, OpReturn)
    ensures v.target.Some? <==> v.imm > 0
  {
    var t := LastCallTarget(ops);
    Verdict(if t.Some? then Some(t.value) else None, CountOps(ops, OpCall), CountOps(ops, OpCallInd), CountOps(ops, OpReturn))
  }

  /** `SBPCode.lift_block`: an instruction that raises logs a failure without
      counting the lift; otherwise the lift is counted and the stopping
      instruction, if any, classifies the block. */
  function PcodeLift(b: Board, addr: nat, bytes: seq<byte>, insns: seq<Insn>, liftTime: real): (r: Result<Board, Fatal>)
    ensures Key(addr, bytes) in b.cache.entries ==> r == Ok(b)
    ensures Key(addr, bytes) !in b.cache.entries && PcodeScan(insns).DecodeError? ==>
      && r.Ok? && LiftPost(b, r.value, Key(addr, bytes))
      && r.value.stats == b.stats
      && r.value.cache.entries[Key(addr, bytes)].isLiftException
    ensures Key(addr, bytes) !in b.cache.entries && !PcodeScan(insns).DecodeError? ==>
      && (r.Ok? <==> UpdateRunStats(b.stats, liftTime, |bytes|).1)
      && (r.Err? ==> r.error == RunStatsReset)
    ensures Key(addr, bytes) !in b.cache.entries && PcodeScan(insns).Stopped? && r.Ok? ==>
      var ops := PcodeScan(insns).ops;
      && LiftPost(b, r.value, Key(addr, bytes))
      && r.value.stats == Bump(UpdateRunStats(b.stats, liftTime, |bytes|).0, PcodeVerdict(ops))
      && var e := r.value.cache.entries[Key(addr, bytes)];
      && !e.isLiftException
      && (e.irDst.Some? <==> LastCallTarget(ops).Some?)
      && (e.irDst.Some? ==> e.irDst.value == LastCallTarget(ops).value)
    ensures Key(addr, bytes) !in b.cache.entries && PcodeScan(insns).RanOut? && r.Ok? ==>
      && LiftPost(b, r.value, Key(addr, bytes))
      && r.value.stats == UpdateRunStats(b.stats, liftTime, |bytes|).0
      && var e := r.value.cache.entries[Key(addr, bytes)];
      && !e.isLiftException && e.irDst.None?
  {
    if Key(addr, bytes) in b.cache.entries then Ok(b)
    else
      match PcodeScan(insns)
      case DecodeError => CommitFail(b, addr, bytes, b.stats)
      case Stopped(ops) =>
        var (s, ok) := UpdateRunStats(b.stats, liftTime, |bytes|);
        if !ok then Err(RunStatsReset) else Commit(b, addr, bytes, s, PcodeVerdict(ops))
      case RanOut =>
        var (s, ok) := UpdateRunStats(b.stats, liftTime, |bytes|);
        if !ok then Err(RunStatsReset) else Commit(b, addr, bytes, s, NoCall)
  }

  // ---------------------------------------------------------------- BAP

  /** An integer literal under a jump: its value and bit width. */
  datatype Imm = Imm(value: int, size: Width)

  /** What `CallAnalyzer` reports for one lifted statement: the immediate
      jump operands it visited and the number of non-memory variables under
      a jump. */
  datatype StmtScan = StmtScan(imms: seq<Imm>, regs: nat)

  /** The BIL `bap mc` produced for the block, or the exception it raised. */
  datatype BapOut = HelperRaised | Lifted(stmts: seq<StmtScan>)

  predicate Silent(s: StmtScan) {
    |s.imms| == 0 && s.regs == 0
  }

  /** The loop body on a statement with a jump operand: one immediate is a
      call to its value read as signed (an offset, not made absolute),
      whatever registers come with it; with no immediate, one register is a
      register call. More than one immediate, or no immediate and more than
      one register, aborts. */
  function Classify(s: StmtScan): (r: Result<Verdict, Fatal>)
    requires !Silent(s)
    ensures r.Err? <==> |s.imms| > 1 || (|s.imms| == 0 && s.regs > 1)
    ensures r.Err? ==> r.error == (if |s.imms| > 1 then BapManyTargets else BapManyRegisters)
    ensures r.Ok? ==> r.value.ret == 0 && r.value.imm + r.value.reg == 1
    ensures r.Ok? ==> (r.value.target.Some? <==> r.value.imm == 1)
    ensures |s.imms| == 1 ==> r.Ok? && r.value.imm == 1
    ensures r.Ok? && r.value.imm == 1 ==>
      |s.imms| == 1 && r.value.target.value == ToSigned(s.imms[0].value, s.imms[0].size)
  {
    if |s.imms| > 1 then Err(BapManyTargets)
    else if |s.imms| == 1 then Ok(Verdict(Some(ToSigned(s.imms[0].value, s.imms[0].size)), 1, 0, 0))
    else if s.regs > 1 then Err(BapManyRegisters)
    else Ok(Verdict(None, 0, 1, 0))
  }

  /** The index of the first statement with a jump operand, or the length
      when there is none. */
  function FirstLoud(stmts: seq<StmtScan>): (i: nat)
    ensures i <= |stmts|
    ensures forall j :: 0 <= j < i ==> Silent(stmts[j])
    ensures i < |stmts| ==> !Silent(stmts[i])
    decreases |stmts|
  {
    if |stmts| == 0 || !Silent(stmts[0]) then 0
    else FirstLoud(stmts[1..]) + 1
  }

  /** The `for stmt in ir` loop: the first statement with a jump operand
      decides; with none the block has no call. */
  function BapScan(stmts: seq<StmtScan>): (r: Result<Verdict, Fatal>)
    ensures r.Ok? ==> r.value.ret == 0 && r.value.imm + r.value.reg <= 1
    ensures FirstLoud(stmts) == |stmts| ==> r == Ok(NoCall)
    ensures FirstLoud(stmts) < |stmts| ==> r == Classify(stmts[FirstLoud(stmts)])
    decreases |stmts|
  {
    if |stmts| == 0 then Ok(NoCall)
    else if !Silent(stmts[0]) then Classify(stmts[0])
    else BapScan(stmts[1..])
  }

  /** `SBBap.lift_block`: a raising helper logs a failure without counting
      the lift. The bare `except:` also catches a failed running-mean
      assertion, which leaves the statistics already changed and logs a
      failure; an empty IR is counted and logged as a failure. */
  function BapLift(b: Board, addr: nat, bytes: seq<byte>, out: BapOut, liftTime: real): (r: Result<Board, Fatal>)
    ensures Key(addr, bytes) in b.cache.entries ==> r == Ok(b)
    ensures Key(addr, bytes) !in b.cache.entries && out.HelperRaised? ==>
      && r.Ok? && LiftPost(b, r.value, Key(addr, bytes))
      && r.value.stats == b.stats
      && r.value.cache.entries[Key(addr, bytes)].isLiftException
    ensures Key(addr, bytes) !in b.cache.entries && out.Lifted? ==>
      var u := UpdateRunStats(b.stats, liftTime, |bytes|);
      var s, ok := u.0, u.1;
      && (!ok || |out.stmts| == 0 ==>
            && r.Ok? && LiftPost(b, r.value, Key(addr, bytes))
            && r.value.stats == s
            && r.value.cache.entries[Key(addr, bytes)].isLiftException)
      && (ok && |out.stmts| > 0 ==>
            && (r.Err? <==> BapScan(out.stmts).Err?)
            && (r.Ok? ==>
                  && LiftPost(b, r.value, Key(addr, bytes))
                  && r.value.stats == Bump(s, BapScan(out.stmts).value)
                  && var e := r.value.cache.entries[Key(addr, bytes)];
                  && !e.isLiftException && e.irDst == BapScan(out.stmts).value.target))
    ensures r.Ok? ==> r.value.stats.retCnt == b.stats.retCnt
    ensures r.Err? ==> r.error == BapManyTargets || r.error == BapManyRegisters
  {
    if Key(addr, bytes) in b.cache.entries then Ok(b)
    else
      match out
      case HelperRaised => CommitFail(b, addr, bytes, b.stats)
      case Lifted(stmts) =>
        var (s, ok) := UpdateRunStats(b.stats, liftTime, |bytes|);
        if !ok || |stmts| == 0 then CommitFail(b, addr, bytes, s)
        else
          match BapScan(stmts)
          case Err(f) => Err(f)
          case Ok(v) => Commit(b, addr, bytes, s, v)
  }
}
