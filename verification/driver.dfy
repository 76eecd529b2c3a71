/** `SwitchBoard.log_block` with its delayed ground-truth labelling, logging a
    whole execution trace, and the `SBEval` driver that feeds the same trace
    to the three backends. */
module Driver {
  import opened Wrappers
  import opened ByteFmt
  import opened Cache
  import opened RunStats
  import opened Board
  import opened Lifters

  /** What the three lifters produce for one block, with the time each lift
      took (the clock readings become inputs). */
  datatype LiftIn = LiftIn(
    vex: VexIrsb, vexTime: real,
    pcode: seq<Insn>, pcodeTime: real,
    bap: BapOut, bapTime: real)

  /** The subclass's `lift_block`, chosen by the board's IR. */
  function LiftBlock(b: Board, addr: nat, bytes: seq<byte>, input: LiftIn): (r: Result<Board, Fatal>)
    ensures Key(addr, bytes) in b.cache.entries ==> r == Ok(b)
    ensures Key(addr, bytes) !in b.cache.entries && r.Ok? ==> LiftPost(b, r.value, Key(addr, bytes))
    ensures r.Err? ==> r.error != CacheInconsistent
  {
    if b.ir == Vex then VexLift(b, addr, bytes, input.vex, input.vexTime)
    else if b.ir == Pcode then PcodeLift(b, addr, bytes, input.pcode, input.pcodeTime)
    else BapLift(b, addr, bytes, input.bap, input.bapTime)
  }

  /** `log_block`: unless this is the first block, the previous block learns
      that execution continued at `addr`; then the block is lifted if its key
      is not cached yet, from this block's lifter input, and becomes the
      previous block; a failed lift fails the call. The source's
      `assert(self.last_bbr)` after lifting holds: every lift that returns
      has stored an entry for the key. The lift neither reads nor writes the
      first-block flag, so that flag is cleared at the end here. */
  function LogBlock(b: Board, addr: nat, bytes: seq<byte>, input: LiftIn): (r: Result<Board, Fatal>)
    requires WellFormed(b)
    ensures r.Ok? ==> WellFormed(r.value)
    ensures r.Ok? ==> !r.value.firstBb && r.value.lastBbr == Some(Key(addr, bytes))
    ensures r.Ok? ==> r.value.ir == b.ir && r.value.arch == b.arch
    ensures r.Ok? ==> r.value.cache.entries.Keys == b.cache.entries.Keys + {Key(addr, bytes)}
    ensures r.Ok? ==> forall k :: k in b.cache.entries && (b.firstBb || k != b.lastBbr.value) ==>
      r.value.cache.entries[k] == b.cache.entries[k]
    ensures r.Ok? && !b.firstBb ==>
      var e, e' := b.cache.entries[b.lastBbr.value], r.value.cache.entries[b.lastBbr.value];
      && SameCore(e, e') && e'.isLiftException == e.isLiftException
      && e'.trueDst == Some(addr)
      && (e.irDst.Some? ==> e'.isMiss == Some(e.irDst.value != addr))
    ensures r.Ok? && Key(addr, bytes) !in b.cache.entries ==> r.value.cache.entries[Key(addr, bytes)].trueDst.None?
    ensures Key(addr, bytes) in b.cache.entries ==> r.Ok? && r.value.stats == b.stats
    ensures Key(addr, bytes) !in b.cache.entries ==>
      var lifted := LiftBlock(if b.firstBb then b else UpdateAccStats(b, addr), addr, bytes, input);
      && (r.Ok? <==> lifted.Ok?)
      && (r.Err? ==> r.error == lifted.error)
      && (r.Ok? ==> r.value.stats == lifted.value.stats
                    && r.value.cache.entries[Key(addr, bytes)] == lifted.value.cache.entries[Key(addr, bytes)])
    ensures r.Err? ==> r.error != CacheInconsistent
  {
    var k := Key(addr, bytes);
    var b1 := if b.firstBb then b else UpdateAccStats(b, addr);
    if k in b1.cache.entries then
      Ok(b1.(firstBb := false, lastBbr := Some(k)))
    else
      match LiftBlock(b1, addr, bytes, input)
      case Err(f) => Err(f)
      case Ok(b2) => Ok(b2.(firstBb := false, lastBbr := Some(k)))
  }

  /** One executed block of the trace. */
  datatype Obs = Obs(addr: nat, bytes: seq<byte>, input: LiftIn)

  function ObsKey(o: Obs): Key {
    Key(o.addr, o.bytes)
  }

  function ObsKeys(obs: seq<Obs>): set<Key> {
    set i | 0 <= i < |obs| :: ObsKey(obs[i])
  }

  /** `log_block` on every block of the trace, in order; the first abort
      ends the run. */
  function LogAll(b: Board, obs: seq<Obs>): (r: Result<Board, Fatal>)
    requires WellFormed(b)
    ensures r.Ok? ==> WellFormed(r.value) && r.value.ir == b.ir && r.value.arch == b.arch
    decreases |obs|
  {
    if |obs| == 0 then Ok(b)
    else
      match LogAll(b, obs[..|obs| - 1])
      case Err(f) => Err(f)
      case Ok(b1) => LogBlock(b1, obs[|obs| - 1].addr, obs[|obs| - 1].bytes, obs[|obs| - 1].input)
  }

  /** Position `i` is the most recent occurrence of `k` among all blocks but
      the last. */
  predicate LatestBefore(obs: seq<Obs>, i: int, k: Key)
    requires 0 <= i < |obs| - 1
  {
    ObsKey(obs[i]) == k && forall j :: i < j < |obs| - 1 ==> ObsKey(obs[j]) != k
  }

  /** The ground truth of a key in a trace: the address of the block that
      followed its most recent occurrence other than the final block. */
  function GroundTruth(obs: seq<Obs>, k: Key): (t: Option<int>)
    ensures t.None? <==> forall i :: 0 <= i < |obs| - 1 ==> ObsKey(obs[i]) != k
    ensures t.Some? ==> exists i :: 0 <= i < |obs| - 1 && LatestBefore(obs, i, k) && obs[i + 1].addr == t.value
    decreases |obs|
  {
    if |obs| < 2 then None
    else
      var n := |obs|;
      var init := obs[..n - 1];
      assert forall i :: 0 <= i < |init| ==> init[i] == obs[i];
      if ObsKey(obs[n - 2]) == k then
        assert LatestBefore(obs, n - 2, k);
        Some(obs[n - 1].addr)
      else
        var t := GroundTruth(init, k);
        assert t.Some? ==> exists i :: 0 <= i < n - 1 && LatestBefore(obs, i, k) && obs[i + 1].addr == t.value by {
          if t.Some? {
            var i :| 0 <= i < |init| - 1 && LatestBefore(init, i, k) && init[i + 1].addr == t.value;
            assert LatestBefore(obs, i, k);
          }
        }
        t
  }

  /** What the labelling guarantees after a logged trace: the cache holds
      exactly the trace's keys, every entry's true target is its ground
      truth, and the handle names the last block. */
  ghost predicate Labelled(b: Board, obs: seq<Obs>) {
    && WellFormed(b)
    && b.cache.entries.Keys == ObsKeys(obs)
    && (forall k :: k in b.cache.entries ==> b.cache.entries[k].trueDst == GroundTruth(obs, k))
    && b.firstBb == (|obs| == 0)
    && (|obs| > 0 ==> b.lastBbr == Some(ObsKey(obs[|obs| - 1])))
  }

  /** Delayed labelling over a whole trace from a fresh board: the cache
      holds exactly the trace's keys and each entry's true target is the
      address that followed the key's most recent non-final occurrence. */
  lemma LogAllLabels(ir: IR, arch: Arch, obs: seq<Obs>)
    requires LogAll(NewBoard(ir, arch), obs).Ok?
    ensures Labelled(LogAll(NewBoard(ir, arch), obs).value, obs)
  {
    RunLabels(NewBoard(ir, arch), obs);
  }

  /** The induction behind LogAllLabels, from any board labelled for the
      empty trace. */
  lemma {:induction false} RunLabels(b0: Board, obs: seq<Obs>)
    requires Labelled(b0, [])
    requires LogAll(b0, obs).Ok?
    ensures Labelled(LogAll(b0, obs).value, obs)
    decreases |obs|
  {
    if |obs| > 0 {
      LogAllPrefix(b0, obs);
      RunLabels(b0, obs[..|obs| - 1]);
      RunLabelsStep(b0, obs);
    }
  }

  /** A run that succeeds succeeded on every block but the last. */
  lemma LogAllPrefix(b0: Board, obs: seq<Obs>)
    requires WellFormed(b0) && |obs| > 0
    requires LogAll(b0, obs).Ok?
    ensures LogAll(b0, obs[..|obs| - 1]).Ok?
  {
  }

  /** Logging the last block extends the labelling of the rest of the run. */
  lemma RunLabelsStep(b0: Board, obs: seq<Obs>)
    requires WellFormed(b0) && |obs| > 0
    requires LogAll(b0, obs).Ok? && LogAll(b0, obs[..|obs| - 1]).Ok?
    requires Labelled(LogAll(b0, obs[..|obs| - 1]).value, obs[..|obs| - 1])
    ensures Labelled(LogAll(b0, obs).value, obs)
  {
    var init, o := obs[..|obs| - 1], obs[|obs| - 1];
    var b1 := LogAll(b0, init).value;
    LogBlockLabels(b1, init, o);
    SnocLast(obs);
    LabelledSame(LogBlock(b1, o.addr, o.bytes, o.input).value, LogAll(b0, obs).value, init + [o], obs);
  }

  /** A non-empty trace is its blocks but the last, followed by the last. */
  lemma SnocLast(obs: seq<Obs>)
    requires |obs| > 0
    ensures obs[..|obs| - 1] + [obs[|obs| - 1]] == obs
  {
  }

  lemma LabelledSame(b: Board, b': Board, obs: seq<Obs>, obs': seq<Obs>)
    requires Labelled(b, obs) && b == b' && obs == obs'
    ensures Labelled(b', obs')
  {
  }

  /** After a whole trace, every verdict compares the prediction with the
      ground truth. */
  lemma LogAllVerdicts(ir: IR, arch: Arch, obs: seq<Obs>)
    requires LogAll(NewBoard(ir, arch), obs).Ok?
    ensures var b := LogAll(NewBoard(ir, arch), obs).value;
      forall k :: k in b.cache.entries && b.cache.entries[k].irDst.Some? && GroundTruth(obs, k).Some? ==>
        b.cache.entries[k].isMiss == Some(b.cache.entries[k].irDst.value != GroundTruth(obs, k).value)
  {
    LogAllLabels(ir, arch, obs);
    LabelledVerdicts(LogAll(NewBoard(ir, arch), obs).value, obs);
  }

  /** Once labelled, every verdict compares the prediction with the ground
      truth. */
  lemma LabelledVerdicts(b: Board, obs: seq<Obs>)
    requires Labelled(b, obs)
    ensures forall k :: k in b.cache.entries && b.cache.entries[k].irDst.Some? && GroundTruth(obs, k).Some? ==>
      b.cache.entries[k].isMiss == Some(b.cache.entries[k].irDst.value != GroundTruth(obs, k).value)
  {
    forall k | k in b.cache.entries && b.cache.entries[k].irDst.Some? && GroundTruth(obs, k).Some?
      ensures b.cache.entries[k].isMiss == Some(b.cache.entries[k].irDst.value != GroundTruth(obs, k).value)
    {
      assert Consistent(b.cache.entries[k]);
    }
  }

  /** One step of LogAllLabels: logging one more block extends the labelling
      from the trace to the trace with that block appended. */
  lemma LogBlockLabels(b: Board, obs: seq<Obs>, o: Obs)
    requires Labelled(b, obs)
    requires LogBlock(b, o.addr, o.bytes, o.input).Ok?
    ensures Labelled(LogBlock(b, o.addr, o.bytes, o.input).value, obs + [o])
  {
    var b' := LogBlock(b, o.addr, o.bytes, o.input).value;
    var obs' := obs + [o];
    ObsKeysAppend(obs, o);
    forall k | k in b'.cache.entries
      ensures b'.cache.entries[k].trueDst == GroundTruth(obs', k)
    {
      TrueDstAfterLog(b, obs, o, k);
    }
  }

  lemma ObsKeysAppend(obs: seq<Obs>, o: Obs)
    ensures ObsKeys(obs + [o]) == ObsKeys(obs) + {ObsKey(o)}
  {
    var obs' := obs + [o];
    assert forall i :: 0 <= i < |obs| ==> obs'[i] == obs[i];
    assert obs'[|obs|] == o;
  }

  /** The ground truth after appending a block: the previously last block's
      key now points at the new block's address; other keys keep theirs. */
  lemma GroundTruthAppend(obs: seq<Obs>, o: Obs, k: Key)
    requires |obs| > 0
    ensures GroundTruth(obs + [o], k) ==
      if ObsKey(obs[|obs| - 1]) == k then Some(o.addr as int) else GroundTruth(obs, k)
  {
    var obs' := obs + [o];
    assert obs'[..|obs'| - 1] == obs;
    assert obs'[|obs'| - 2] == obs[|obs| - 1];
  }

  lemma GroundTruthUnseen(obs: seq<Obs>, k: Key)
    requires k !in ObsKeys(obs)
    ensures GroundTruth(obs, k).None?
  {
    forall i | 0 <= i < |obs| - 1 ensures ObsKey(obs[i]) != k {
      assert ObsKey(obs[i]) in ObsKeys(obs);
    }
  }

  lemma TrueDstAfterLog(b: Board, obs: seq<Obs>, o: Obs, k: Key)
    requires Labelled(b, obs)
    requires LogBlock(b, o.addr, o.bytes, o.input).Ok?
    requires k in LogBlock(b, o.addr, o.bytes, o.input).value.cache.entries
    ensures LogBlock(b, o.addr, o.bytes, o.input).value.cache.entries[k].trueDst == GroundTruth(obs + [o], k)
  {
    var b' := LogBlock(b, o.addr, o.bytes, o.input).value;
    if |obs| == 0 {
      assert |obs + [o]| == 1;
      assert b.cache.entries.Keys == {};
    } else {
      GroundTruthAppend(obs, o, k);
      var last := b.lastBbr.value;
      assert last == ObsKey(obs[|obs| - 1]);
      if k == last {
      } else if k in b.cache.entries {
      } else {
        GroundTruthUnseen(obs, k);
      }
    }
  }

  /** A successful run is the run on all blocks but the last, followed by
      `log_block` on the last. */
  lemma LogAllStep(b0: Board, obs: seq<Obs>)
    requires WellFormed(b0) && |obs| > 0 && LogAll(b0, obs).Ok?
    ensures LogAll(b0, obs[..|obs| - 1]).Ok?
    ensures var o := obs[|obs| - 1];
      LogAll(b0, obs) == LogBlock(LogAll(b0, obs[..|obs| - 1]).value, o.addr, o.bytes, o.input)
  {
  }

  /** Logging a trace in two parts: the second part starts from the board
      the first part leaves. */
  lemma {:induction false} LogAllAppend(b0: Board, xs: seq<Obs>, ys: seq<Obs>)
    requires WellFormed(b0) && LogAll(b0, xs + ys).Ok?
    ensures LogAll(b0, xs).Ok?
    ensures LogAll(b0, xs + ys) == LogAll(LogAll(b0, xs).value, ys)
    decreases |ys|
  {
    if |ys| == 0 {
      assert xs + ys == xs;
    } else {
      var m := |ys| - 1;
      LogAllStep(b0, xs + ys);
      SplitLast(xs, ys);
      LogAllAppend(b0, xs, ys[..m]);
    }
  }

  lemma SplitAt<T>(s: seq<T>, i: nat)
    requires i < |s|
    ensures s[..i + 1] + s[i + 1..] == s
    ensures s[..i + 1][..i] == s[..i] && s[..i + 1][i] == s[i] && |s[..i + 1]| == i + 1
  {
  }

  /** Dropping the last element of `xs + ys` drops the last of `ys`. */
  lemma SplitLast<T>(xs: seq<T>, ys: seq<T>)
    requires |ys| > 0
    ensures (xs + ys)[..|xs + ys| - 1] == xs + ys[..|ys| - 1]
    ensures (xs + ys)[|xs + ys| - 1] == ys[|ys| - 1]
  {
  }

  /** The parts of a stored result that `log_block` fixes when it lifts the
      block: the key, the architecture, the predicted target and the failure
      flag. */
  predicate PredictionOf(a: BBResult, e: BBResult) {
    SameCore(a, e) && a.isLiftException == e.isLiftException
  }

  /** One logged block keeps every stored prediction and failure flag. */
  lemma LogBlockKeepsPrediction(b: Board, addr: nat, bytes: seq<byte>, input: LiftIn, k: Key)
    requires WellFormed(b) && LogBlock(b, addr, bytes, input).Ok? && k in b.cache.entries
    ensures k in LogBlock(b, addr, bytes, input).value.cache.entries
    ensures PredictionOf(b.cache.entries[k], LogBlock(b, addr, bytes, input).value.cache.entries[k])
  {
  }

  /** Once a key is stored, later blocks never change its prediction or its
      failure flag: they only fill in its true target and verdict. */
  lemma {:induction false} RunKeepsPrediction(b: Board, obs: seq<Obs>, k: Key)
    requires WellFormed(b) && LogAll(b, obs).Ok? && k in b.cache.entries
    ensures k in LogAll(b, obs).value.cache.entries
    ensures PredictionOf(b.cache.entries[k], LogAll(b, obs).value.cache.entries[k])
    decreases |obs|
  {
    if |obs| > 0 {
      var n := |obs| - 1;
      LogAllStep(b, obs);
      RunKeepsPrediction(b, obs[..n], k);
      LogBlockKeepsPrediction(LogAll(b, obs[..n]).value, obs[n].addr, obs[n].bytes, obs[n].input, k);
    }
  }

  /** The prediction stored for a key is the one the lifter made for the
      input of the key's first occurrence, lifting on the board as it stood
      then; nothing logged afterwards changes it. */
  lemma FirstSightPrediction(b0: Board, obs: seq<Obs>, i: nat)
    requires Labelled(b0, []) && LogAll(b0, obs).Ok?
    requires i < |obs| && ObsKey(obs[i]) !in ObsKeys(obs[..i])
    ensures LogAll(b0, obs[..i]).Ok?
    ensures var b := LogAll(b0, obs[..i]).value;
      && ObsKey(obs[i]) !in b.cache.entries
      && var lifted := LiftBlock(if b.firstBb then b else UpdateAccStats(b, obs[i].addr), obs[i].addr, obs[i].bytes, obs[i].input);
      && lifted.Ok?
      && ObsKey(obs[i]) in LogAll(b0, obs).value.cache.entries
      && PredictionOf(lifted.value.cache.entries[ObsKey(obs[i])], LogAll(b0, obs).value.cache.entries[ObsKey(obs[i])])
  {
    var xs, ys := obs[..i + 1], obs[i + 1..];
    SplitAt(obs, i);
    LogAllAppend(b0, xs, ys);
    LogAllStep(b0, xs);
    RunLabels(b0, obs[..i]);
    RunKeepsPrediction(LogAll(b0, xs).value, ys, ObsKey(obs[i]));
  }

  /** With pairwise distinct keys, every block but the last is labelled with
      the address of the block that followed it, and the last stays
      unlabelled. */
  lemma DistinctTraceLabels(ir: IR, arch: Arch, obs: seq<Obs>, i: nat)
    requires LogAll(NewBoard(ir, arch), obs).Ok?
    requires forall p, q :: 0 <= p < q < |obs| ==> ObsKey(obs[p]) != ObsKey(obs[q])
    requires i < |obs|
    ensures var e := LogAll(NewBoard(ir, arch), obs).value.cache.entries;
      && ObsKey(obs[i]) in e
      && e[ObsKey(obs[i])].trueDst == (if i < |obs| - 1 then Some(obs[i + 1].addr as int) else None)
  {
    LogAllLabels(ir, arch, obs);
    assert ObsKey(obs[i]) in ObsKeys(obs);
    DistinctGroundTruth(obs, i);
  }

  /** With pairwise distinct keys, a block's ground truth is the address of
      the block right after it, and the last block has none. */
  lemma DistinctGroundTruth(obs: seq<Obs>, i: nat)
    requires forall p, q :: 0 <= p < q < |obs| ==> ObsKey(obs[p]) != ObsKey(obs[q])
    requires i < |obs|
    ensures GroundTruth(obs, ObsKey(obs[i])) == if i < |obs| - 1 then Some(obs[i + 1].addr as int) else None
  {
    var k := ObsKey(obs[i]);
    var t := GroundTruth(obs, k);
    if t.Some? {
      var j :| 0 <= j < |obs| - 1 && LatestBefore(obs, j, k) && obs[j + 1].addr == t.value;
      assert j == i;
    } else {
      assert i == |obs| - 1;
    }
  }

  // ---------------------------------------------------------------- SBEval

  /** The three call finders `SBEval` drives. */
  datatype Eval = Eval(vex: Board, pcode: Board, bap: Board)

  ghost predicate EvalWellFormed(e: Eval) {
    && WellFormed(e.vex) && WellFormed(e.pcode) && WellFormed(e.bap)
    && e.vex.ir == Vex && e.pcode.ir == Pcode && e.bap.ir == Bap
  }

  /** `SBEval.__init__`. */
  function NewEval(arch: Arch): (e: Eval)
    ensures EvalWellFormed(e)
    ensures e.vex.arch == arch && e.pcode.arch == arch && e.bap.arch == arch
  {
    Eval(NewBoard(Vex, arch), NewBoard(Pcode, arch), NewBoard(Bap, arch))
  }

  /** `SBEval.lift_block`: lifts on all three boards and labels nothing. */
  function EvalLiftBlock(e: Eval, addr: nat, bytes: seq<byte>, input: LiftIn): (r: Result<Eval, Fatal>)
    requires EvalWellFormed(e)
    ensures r.Ok? ==> EvalWellFormed(r.value)
    ensures r.Ok? ==> Unlabelled(e.vex, r.value.vex) && Unlabelled(e.pcode, r.value.pcode) && Unlabelled(e.bap, r.value.bap)
    ensures r.Ok? ==>
      && Key(addr, bytes) in r.value.vex.cache.entries
      && Key(addr, bytes) in r.value.pcode.cache.entries
      && Key(addr, bytes) in r.value.bap.cache.entries
  {
    LiftUnlabelled(e.vex, addr, bytes, input);
    LiftUnlabelled(e.pcode, addr, bytes, input);
    LiftUnlabelled(e.bap, addr, bytes, input);
    match LiftBlock(e.vex, addr, bytes, input)
    case Err(f) => Err(f)
    case Ok(v) =>
      match LiftBlock(e.pcode, addr, bytes, input)
      case Err(f) => Err(f)
      case Ok(p) =>
        match LiftBlock(e.bap, addr, bytes, input)
        case Err(f) => Err(f)
        case Ok(a) => Ok(Eval(v, p, a))
  }

  /** A lift on its own leaves the labelling alone and stores the key. */
  lemma LiftUnlabelled(b: Board, addr: nat, bytes: seq<byte>, input: LiftIn)
    requires WellFormed(b)
    ensures var r := LiftBlock(b, addr, bytes, input);
      r.Ok? ==> WellFormed(r.value) && r.value.ir == b.ir && Unlabelled(b, r.value) && Key(addr, bytes) in r.value.cache.entries
  {
  }

  /** No entry that existed is changed, and the first-block flag and handle
      are as they were. */
  ghost predicate Unlabelled(b: Board, b': Board) {
    && b'.firstBb == b.firstBb && b'.lastBbr == b.lastBbr
    && (forall k :: k in b.cache.entries ==> k in b'.cache.entries && b'.cache.entries[k] == b.cache.entries[k])
  }

  /** `SBEval.log_block`: the same block goes to VEX, then P-code, then BAP. */
  function EvalLogBlock(e: Eval, addr: nat, bytes: seq<byte>, input: LiftIn): (r: Result<Eval, Fatal>)
    requires EvalWellFormed(e)
    ensures r.Ok? ==> EvalWellFormed(r.value)
    ensures r.Ok? <==>
      && LogBlock(e.vex, addr, bytes, input).Ok?
      && LogBlock(e.pcode, addr, bytes, input).Ok?
      && LogBlock(e.bap, addr, bytes, input).Ok?
    ensures r.Ok? ==> r.value == Eval(
      LogBlock(e.vex, addr, bytes, input).value,
      LogBlock(e.pcode, addr, bytes, input).value,
      LogBlock(e.bap, addr, bytes, input).value)
  {
    match LogBlock(e.vex, addr, bytes, input)
    case Err(f) => Err(f)
    case Ok(v) =>
      match LogBlock(e.pcode, addr, bytes, input)
      case Err(f) => Err(f)
      case Ok(p) =>
        match LogBlock(e.bap, addr, bytes, input)
        case Err(f) => Err(f)
        case Ok(a) => Ok(Eval(v, p, a))
  }

  function EvalLogAll(e: Eval, obs: seq<Obs>): (r: Result<Eval, Fatal>)
    requires EvalWellFormed(e)
    ensures r.Ok? ==> EvalWellFormed(r.value)
    decreases |obs|
  {
    if |obs| == 0 then Ok(e)
    else
      match EvalLogAll(e, obs[..|obs| - 1])
      case Err(f) => Err(f)
      case Ok(e1) => EvalLogBlock(e1, obs[|obs| - 1].addr, obs[|obs| - 1].bytes, obs[|obs| - 1].input)
  }

  /** A trace the driver logs without aborting is logged without aborting by
      each backend on its own, to the same boards. */
  lemma {:induction false} EvalLogAllSplit(arch: Arch, obs: seq<Obs>)
    requires EvalLogAll(NewEval(arch), obs).Ok?
    ensures LogAll(NewBoard(Vex, arch), obs).Ok?
    ensures LogAll(NewBoard(Pcode, arch), obs).Ok?
    ensures LogAll(NewBoard(Bap, arch), obs).Ok?
    ensures EvalLogAll(NewEval(arch), obs).value == Eval(
      LogAll(NewBoard(Vex, arch), obs).value,
      LogAll(NewBoard(Pcode, arch), obs).value,
      LogAll(NewBoard(Bap, arch), obs).value)
    decreases |obs|
  {
    if |obs| > 0 {
      EvalLogAllSplit(arch, obs[..|obs| - 1]);
    }
  }

  /** The three backends see the same trace, so they hold the same keys and
      agree on every key's true target. */
  lemma CrossBackendAgreement(arch: Arch, obs: seq<Obs>, k: Key)
    requires EvalLogAll(NewEval(arch), obs).Ok?
    ensures var e := EvalLogAll(NewEval(arch), obs).value;
      && (k in e.vex.cache.entries <==> k in e.pcode.cache.entries)
      && (k in e.vex.cache.entries <==> k in e.bap.cache.entries)
      && (k in e.vex.cache.entries ==>
            && e.vex.cache.entries[k].trueDst == e.pcode.cache.entries[k].trueDst
            && e.vex.cache.entries[k].trueDst == e.bap.cache.entries[k].trueDst)
  {
    EvalLogAllSplit(arch, obs);
    LogAllLabels(Vex, arch, obs);
    LogAllLabels(Pcode, arch, obs);
    LogAllLabels(Bap, arch, obs);
  }

  // ---------------------------------------------------------------- dump_json

  /** `ErrorCategory.MISS`, `ErrorCategory.FAIL`, or any other value. */
  datatype Category = MissCategory | FailCategory | OtherCategory

  /** `SBEval.dump_json` without the file: the object's single key and the
      rendered entries of the miss or fail list; any other category aborts. */
  function DumpJson(b: Board, category: Category): (r: Result<(string, seq<StrDict>), Fatal>)
    requires Valid(b.cache)
    ensures r.Err? <==> category == OtherCategory
    ensures r.Err? ==> r.error == UnknownCategory
    ensures r.Ok? ==> r.value.0 == "ir_" + IRName(b.ir)
    ensures r.Ok? ==>
      var v := if category == MissCategory then Misses else Fails;
      && |r.value.1| == |ViewKeys(b.cache, v)|
      && forall i :: 0 <= i < |r.value.1| ==>
           var e := Finalize(b.cache).entries[ViewKeys(b.cache, v)[i]];
           InView(v, e) && r.value.1[i] == ToStrDict(e)
  {
    var name := "ir_" + IRName(b.ir);
    match category
    case MissCategory => Ok((name, Render(b.cache, Misses)))
    case FailCategory => Ok((name, Render(b.cache, Fails)))
    case OtherCategory => Err(UnknownCategory)
  }

  function Render(c: ResultCache, v: View): (ds: seq<StrDict>)
    requires Valid(c)
    ensures |ds| == |ViewKeys(c, v)|
    ensures forall i :: 0 <= i < |ds| ==>
      var e := Finalize(c).entries[ViewKeys(c, v)[i]];
      InView(v, e) && ds[i] == ToStrDict(e)
  {
    var ks, f := ViewKeys(c, v), Finalize(c).entries;
    assert forall i :: 0 <= i < |ks| ==> ks[i] in f && InView(v, f[ks[i]]) by {
      forall i | 0 <= i < |ks| ensures ks[i] in f && InView(v, f[ks[i]]) {
        assert ks[i] in ks;
      }
    }
    seq(|ks|, i requires 0 <= i < |ks| => ToStrDict(f[ks[i]]))
  }

  /** On a board whose verdicts follow the correctness rule, every dumped
      miss carries both targets, rendered as one-element tuples whose values
      differ; every dumped failure has no predicted target. */
  lemma DumpedMissesDiffer(b: Board, category: Category, i: nat)
    requires WellFormed(b) && category != OtherCategory
    requires i < |DumpJson(b, category).value.1|
    ensures var d := DumpJson(b, category).value.1[i];
      && (category == MissCategory ==>
            && d.irDst.Tuple1? && d.trueDst.Tuple1?
            && ParseSignedHex(d.irDst.s) != ParseSignedHex(d.trueDst.s))
      && (category == FailCategory ==> d.irDst == Text("None"))
  {
    var v := if category == MissCategory then Misses else Fails;
    var ks := ViewKeys(b.cache, v);
    var e := Finalize(b.cache).entries[ks[i]];
    var d := DumpJson(b, category).value.1[i];
    assert InView(v, e) && d == ToStrDict(e);
    FinalizeConsistent(b.cache);
    assert e == b.cache.entries[ks[i]];
    assert Consistent(e);
  }
}
