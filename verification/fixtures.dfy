/** The unit-test snippets of the evaluator (a call through an immediate, a
    call through a register, a return) lifted once on a fresh board, with
    the lifter output each backend produces for them. */
module Fixtures {
  import opened Wrappers
  import opened ByteFmt
  import opened Cache
  import opened RunStats
  import opened Signed
  import opened Board
  import opened Lifters

  /** The x86-64 immediate-call snippet: `mov rax, rbx; inc rax;
      call 0x1331; xor rax, rax` at address 0. */
  const CallImmBytes: seq<byte> := [
    0x48, 0x89, 0xD8, 0x48, 0xFF, 0xC0, 0xE8, 0x2C, 0x13, 0x00, 0x00, 0x48, 0x31, 0xC0]

  /** The call instruction of that snippet sits at offset 6. */
  lemma CallImmInsn()
    ensures CallImmBytes[6..11] == [0xE8, 0x2C, 0x13, 0x00, 0x00]
    ensures X86CallTarget(6, CallImmBytes[6..11]) == 0x1337
  {
    assert CallImmBytes[6..11] == ForwardCall;
    X86ForwardFixture();
  }

  /** The counters and the stored prediction after one lift on a fresh board. */
  ghost predicate LiftedOnce(r: Result<Board, Fatal>, addr: nat, bytes: seq<byte>,
                             imm: nat, reg: nat, ret: nat, target: Option<int>) {
    && r.Ok?
    && r.value.stats.callImmCnt == imm && r.value.stats.callRegCnt == reg && r.value.stats.retCnt == ret
    && r.value.stats.bbCnt == 1
    && Key(addr, bytes) in r.value.cache.entries
    && r.value.cache.entries[Key(addr, bytes)].irDst == target
  }

  /** VEX ends the block at the call with a constant `next`: one immediate
      call, predicted target 0x1337. */
  lemma VexCallImm(stmtCount: nat, liftTime: real)
    requires stmtCount > 0
    ensures LiftedOnce(
      VexLift(NewBoard(Vex, X86_64), 0, CallImmBytes,
              VexIrsb(stmtCount, IjkCall, Const(X86CallTarget(6, CallImmBytes[6..11]))), liftTime),
      0, CallImmBytes, 1, 0, 0, Some(0x1337))
  {
    CallImmInsn();
  }

  /** A register call: one register call and no predicted target. */
  lemma VexCallReg(bytes: seq<byte>, stmtCount: nat, liftTime: real)
    requires stmtCount > 0
    ensures LiftedOnce(VexLift(NewBoard(Vex, X86_64), 0, bytes, VexIrsb(stmtCount, IjkCall, RdTmp), liftTime),
      0, bytes, 0, 1, 0, None)
  {
  }

  /** A return: one return and no predicted target. */
  lemma VexRet(bytes: seq<byte>, stmtCount: nat, liftTime: real)
    requires stmtCount > 0
    ensures LiftedOnce(VexLift(NewBoard(Vex, X86_64), 0, bytes, VexIrsb(stmtCount, IjkRet, OtherExpr), liftTime),
      0, bytes, 0, 0, 1, None)
  {
  }

  /** P-code of the immediate-call snippet: two plain instructions, then the
      call, whose `CALL` names 0x1337. */
  const CallOps: seq<PcodeOp> := [PcodeOp(OpOther, 0), PcodeOp(OpOther, 0), PcodeOp(OpCall, 0x1337)]
  const CallImmPcode: seq<Insn> :=
    [Some([PcodeOp(OpOther, 0)]), Some([PcodeOp(OpOther, 0), PcodeOp(OpOther, 0)]), Some(CallOps)]

  /** The trailing instruction is never looked at. */
  lemma PcodeCallImm(tail: seq<Insn>, liftTime: real)
    ensures LiftedOnce(PcodeLift(NewBoard(Pcode, X86_64), 0, CallImmBytes, CallImmPcode + tail, liftTime),
      0, CallImmBytes, 1, 0, 0, Some(0x1337))
  {
    CallImmScan(tail);
    CallOpsVerdict();
    var b := NewBoard(Pcode, X86_64);
    FirstUpdateSucceeds(liftTime, |CallImmBytes|);
    assert PcodeLift(b, 0, CallImmBytes, CallImmPcode + tail, liftTime).Ok?;
  }

  /** The walk stops at the third instruction, whatever follows it. */
  lemma CallImmScan(tail: seq<Insn>)
    ensures PcodeScan(CallImmPcode + tail) == Stopped(CallOps)
  {
    var head := CallImmPcode;
    assert !Stops(head[0].value) && !Stops(head[1].value) && Stops(CallOps) by {
      assert IsStop(CallOps[2]);
    }
    assert head[1..][1..] == [Some(CallOps)];
    assert PcodeScan(head[1..][1..]) == Stopped(CallOps);
    assert PcodeScan(head[1..]) == Stopped(CallOps);
    assert PcodeScan(head) == Stopped(CallOps);
    PcodeScanIgnoresSuffix(head, tail);
  }

  /** The call instruction holds one `CALL`, to 0x1337, and nothing else
      that counts. */
  lemma CallOpsVerdict()
    ensures CountOps(CallOps, OpCall) == 1
    ensures CountOps(CallOps, OpCallInd) == 0 && CountOps(CallOps, OpReturn) == 0
    ensures LastCallTarget(CallOps) == Some(0x1337)
  {
    var ns := Names(CallOps);
    assert ns == [OpOther, OpOther, OpCall];
    assert multiset(ns)[OpCall] == 1;
    assert CallOps[2].name == OpCall;
  }

  /** BAP of the immediate-call snippet: the call's statement jumps to the
      64-bit literal 0x1337, which reads back unchanged as a signed value. */
  const CallImmBil: seq<StmtScan> :=
    [StmtScan([], 0), StmtScan([], 0), StmtScan([Imm(0x1337, 64)], 0), StmtScan([], 0)]

  lemma BapCallImm(liftTime: real)
    ensures LiftedOnce(BapLift(NewBoard(Bap, X86_64), 0, CallImmBytes, Lifted(CallImmBil), liftTime),
      0, CallImmBytes, 1, 0, 0, Some(0x1337))
  {
    CallImmBilVerdict();
    FirstUpdateSucceeds(liftTime, |CallImmBytes|);
  }

  /** The third statement decides: one immediate call to 0x1337. */
  lemma CallImmBilVerdict()
    ensures BapScan(CallImmBil) == Ok(Verdict(Some(0x1337), 1, 0, 0))
  {
    Pow2Constants();
    ToSignedUnsigned(0x1337, 64);
    var stmts := CallImmBil;
    assert stmts[1..][1..] == [StmtScan([Imm(0x1337, 64)], 0), StmtScan([], 0)];
  }

  /** BAP turns a literal with its top bit set into a negative offset: a
      32-bit `0xffffecc3` is reported as -0x133d, not made absolute. */
  lemma BapNegativeOffset()
    ensures BapScan([StmtScan([Imm(0xffff_ecc3, 32)], 0)]) == Ok(Verdict(Some(-0x133d), 1, 0, 0))
  {
    Pow2Constants();
    ToSignedUnsigned(0xffff_ecc3, 32);
  }
}
