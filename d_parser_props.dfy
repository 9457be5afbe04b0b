/** What internal/d/parser.go's ParseReader promises, proved about the model
    in DParser: invariants that hold after every line of every file, and
    what a single line of each kind does to the cursor. */
module DParserProps {
  import opened Text
  import opened Wrappers
  import opened DPatterns
  import opened DParser

  // ---------------------------------------------------------------------------
  // Invariants of the cursor

  /** The reply indices of the PC occurrences, in order. */
  function ReplyNumbers(out: seq<Occurrence>): seq<nat> {
    if out == [] then []
    else
      ReplyNumbers(out[..|out| - 1])
      + (match out[|out| - 1].replyIndex case Some(n) => [n] case None => [])
  }

  /** 0, 1, …, n-1. */
  function Upto(n: nat): (r: seq<nat>)
    ensures |r| == n && forall i :: 0 <= i < n ==> r[i] == i
  {
    if n == 0 then [] else Upto(n - 1) + [n - 1]
  }

  /** Exactly the PC occurrences carry a reply index. */
  predicate RepliesArePC(out: seq<Occurrence>) {
    forall i :: 0 <= i < |out| ==> (out[i].replyIndex.Some? <==> out[i].kind == PC)
  }

  /** The replies given since the last BEGIN, EXTEND, CHAIN or state header
      are numbered 0, 1, 2, … and `replyIndex` is the next number. */
  predicate RepliesNumbered(st: DState) {
    var ns := ReplyNumbers(st.out);
    st.replyIndex <= |ns| && ns[|ns| - st.replyIndex..] == Upto(st.replyIndex)
  }

  /** In a CHAIN body, the text an EXTERN or EXIT would retarget is the last
      occurrence emitted, and it is an NPC line. */
  predicate ChainTargetIsLast(st: DState) {
    st.mode == Chain && st.lastChain >= 0 ==>
      st.lastChain == |st.out| - 1 && st.out[st.lastChain].kind == NPC
  }

  /** Everything the cursor keeps true between lines. */
  predicate Inv(st: DState) {
    && Valid(st)
    && RepliesArePC(st.out)
    && RepliesNumbered(st)
    && ChainTargetIsLast(st)
    && (st.pendingHeader != "" ==> st.mode == Normal)
  }

  lemma ReplyNumbersAppend(out: seq<Occurrence>, o: Occurrence)
    ensures ReplyNumbers(out + [o])
            == ReplyNumbers(out) + (match o.replyIndex case Some(n) => [n] case None => [])
  {
    assert (out + [o])[..|out|] == out;
  }

  /** Changing the target of an occurrence does not renumber the replies. */
  lemma {:induction false} ReplyNumbersRetarget(out: seq<Occurrence>, k: nat, o: Occurrence)
    requires k < |out| && o.replyIndex == out[k].replyIndex
    ensures ReplyNumbers(out[k := o]) == ReplyNumbers(out)
    decreases |out|
  {
    var last := |out| - 1;
    if k < last {
      assert out[k := o][..last] == out[..last][k := o];
      ReplyNumbersRetarget(out[..last], k, o);
    } else {
      assert out[k := o][..last] == out[..last];
    }
  }

  /** Appending an occurrence whose reply index matches its kind keeps
      RepliesArePC. */
  lemma RepliesArePCAppend(out: seq<Occurrence>, o: Occurrence)
    requires RepliesArePC(out) && (o.replyIndex.Some? <==> o.kind == PC)
    ensures RepliesArePC(out + [o])
  {
    forall i | 0 <= i < |out + [o]|
      ensures (out + [o])[i].replyIndex.Some? <==> (out + [o])[i].kind == PC
    {
      if i < |out| {
        assert (out + [o])[i] == out[i];
      } else {
        assert (out + [o])[i] == o;
      }
    }
  }

  /** Replacing an occurrence by one of the same kind and reply index keeps
      RepliesArePC. */
  lemma RepliesArePCUpdate(out: seq<Occurrence>, k: nat, o: Occurrence)
    requires RepliesArePC(out) && k < |out| && o.replyIndex == out[k].replyIndex && o.kind == out[k].kind
    ensures RepliesArePC(out[k := o])
  {
    var out' := out[k := o];
    forall i | 0 <= i < |out'|
      ensures out'[i].replyIndex.Some? <==> out'[i].kind == PC
    {
      if i == k {
        assert out'[i] == o;
      } else {
        assert out'[i] == out[i];
      }
    }
  }

  lemma EmitNpcInv(st: DState, o: Occurrence)
    requires Inv(st) && st.mode != Chain && o.kind == NPC && o.replyIndex == None
    ensures Inv(Emit(st, o))
  {
    var st' := Emit(st, o);
    RepliesArePCAppend(st.out, o);
    ReplyNumbersAppend(st.out, o);
    assert ReplyNumbers(st'.out) == ReplyNumbers(st.out);
    assert st'.replyIndex == st.replyIndex && st'.mode == st.mode && st'.lastChain == st.lastChain;
    assert st'.pendingHeader == st.pendingHeader;
  }

  lemma EmitTargetInv(st: DState, o: Occurrence)
    requires Inv(st) && o.kind == NPC && o.replyIndex == None
    ensures Inv(EmitTarget(st, o))
  {
    var st' := EmitTarget(st, o);
    RepliesArePCAppend(st.out, o);
    ReplyNumbersAppend(st.out, o);
    assert ReplyNumbers(st'.out) == ReplyNumbers(st.out);
    assert st'.replyIndex == st.replyIndex && st'.mode == st.mode && st'.pendingHeader == st.pendingHeader;
    assert st'.lastChain == |st'.out| - 1 && st'.out[st'.lastChain] == o;
  }

  /** One more reply, numbered with the next index, keeps the numbering. */
  lemma UptoExtends(ns: seq<nat>, n: nat)
    requires n <= |ns| && ns[|ns| - n..] == Upto(n)
    ensures (ns + [n])[|ns| + 1 - (n + 1)..] == Upto(n + 1)
  {
    assert (ns + [n])[|ns| + 1 - (n + 1)..] == ns[|ns| - n..] + [n];
  }

  lemma EmitReplyInv(st: DState, id: nat, cond: string, t: Target)
    requires Inv(st) && st.mode != Chain
    ensures Inv(EmitReply(st, id, cond, t))
  {
    var o := ReplyOcc(st, id, cond, t);
    var st' := EmitReply(st, id, cond, t);
    assert st'.out == st.out + [o];
    RepliesArePCAppend(st.out, o);
    ReplyNumbersAppend(st.out, o);
    assert ReplyNumbers(st'.out) == ReplyNumbers(st.out) + [st.replyIndex];
    UptoExtends(ReplyNumbers(st.out), st.replyIndex);
    assert st'.replyIndex == st.replyIndex + 1 && st'.mode == st.mode && st'.pendingHeader == st.pendingHeader;
  }

  lemma RetargetInv(st: DState, toType: string, toDlg: Option<string>, toState: Option<string>)
    requires Inv(st) && st.lastChain >= 0
    ensures Inv(Retarget(st, toType, toDlg, toState).(mode := Normal, inState := true, lastChain := -1))
  {
    var o := st.out[st.lastChain].(toType := toType, toDlg := toDlg, toState := toState);
    var st' := Retarget(st, toType, toDlg, toState).(mode := Normal, inState := true, lastChain := -1);
    assert st'.out == st.out[st.lastChain := o];
    RepliesArePCUpdate(st.out, st.lastChain, o);
    ReplyNumbersRetarget(st.out, st.lastChain, o);
    assert st'.replyIndex == st.replyIndex && st'.pendingHeader == st.pendingHeader;
  }

  /** The reset every header does keeps the invariant. */
  lemma ResetInv(st: DState)
    requires Inv(st)
    ensures RepliesNumbered(st.(replyIndex := 0))
  {
  }

  lemma NormalLineStepInv(st: DState, cls: NormalLine, file: string, lineNo: nat)
    requires Inv(st) && st.mode == Normal && st.pendingHeader == ""
    ensures NormalLineStep(st, cls, file, lineNo).Success? ==> Inv(NormalLineStep(st, cls, file, lineNo).value)
  {
    match cls
    case SayLine(id) =>
      if st.dialog != "" && st.state != "" && st.inState {
        EmitNpcInv(st, NpcOcc(st, id, st.speaker, ""));
      }
    case ReplyLineL(r) =>
      if st.dialog != "" && st.state != "" && st.inState {
        EmitReplyInv(st, r.tail.id, NormalizeCondition(TrimSpace(r.cond)),
                     ReplyTarget(TrimSpace(r.tail.rest), st.dialog, true));
      }
    case _ =>
  }

  lemma ChainLineStepInv(st: DState, cls: ChainBodyLine, file: string, lineNo: nat)
    requires Inv(st) && st.mode == Chain
    ensures ChainLineStep(st, cls, file, lineNo).Success? ==> Inv(ChainLineStep(st, cls, file, lineNo).value)
  {
    match cls
    case ChainExtern(d, s) =>
      if st.lastChain >= 0 { RetargetInv(st, "EXTERN", Some(d), Some(s)); }
    case ChainExit =>
      if st.lastChain >= 0 { RetargetInv(st, "EXIT", None, None); }
    case InterjectIfL(l) => EmitTargetInv(st, NpcOcc(st, l.id, l.speaker, TrimSpace(l.cond)));
    case InterjectL(sp, id) => EmitTargetInv(st, NpcOcc(st, id, sp, ""));
    case ChainText(id) => EmitTargetInv(st, NpcOcc(st, id, st.speaker, ""));
    case _ =>
  }

  lemma StateLineStepInv(st: DState, cls: StateBodyLine)
    requires Inv(st) && st.mode == State
    ensures Inv(StateLineStep(st, cls))
  {
    match cls
    case StateSay(id) => EmitTargetInv(st, NpcOcc(st, id, st.speaker, st.stateCond));
    case StateText(id) => EmitTargetInv(st, NpcOcc(st, id, st.speaker, st.stateCond));
    case StateReply(r) =>
      EmitReplyInv(st, r.tail.id, NormalizeCondition(r.cond), ReplyTarget(TrimSpace(r.tail.rest), st.dialog, false));
    case _ =>
  }

  /** Notes and a pending header are not part of the invariant. */
  lemma AddNoteInv(st: DState, comment: string)
    requires Inv(st)
    ensures Inv(AddNote(st, comment))
  {
  }

  lemma PendingInv(st: DState, header: string)
    requires Inv(st) && st.mode == Normal
    ensures Inv(st.(pendingHeader := header))
  {
  }

  lemma BodyCommentInv(st: DState, line: string, comment: string)
    requires Inv(st)
    ensures Inv(BodyComment(st, line, comment)) && BodyComment(st, line, comment).mode == st.mode
  {
    AddNoteInv(st, comment);
  }

  lemma NormalCodeInv(st: DState, line: string, comment: string, file: string, lineNo: nat)
    requires Inv(st) && st.mode == Normal && st.pendingHeader == ""
    ensures NormalCode(st, line, comment, file, lineNo).Success? ==> Inv(NormalCode(st, line, comment, file, lineNo).value)
  {
    AddNoteInv(st, comment);
    if !(line == "" && comment != "") && line != "" {
      var st1 := if comment != "" && st.dialog != "" then AddNote(st, comment) else st;
      NormalLineStepInv(st1, ClassifyNormal(line), file, lineNo);
    }
  }

  lemma NormalStepInv(st: DState, line: string, comment: string, file: string, lineNo: nat)
    requires Inv(st) && st.mode == Normal
    ensures NormalStep(st, line, comment, file, lineNo).Success? ==> Inv(NormalStep(st, line, comment, file, lineNo).value)
  {
    if st.pendingHeader != "" {
      var joined := st.pendingHeader + " " + line;
      PendingInv(st, joined);
      PendingInv(st, "");
      NormalCodeInv(st.(pendingHeader := ""), joined, comment, file, lineNo);
    } else {
      PendingInv(st, line);
      NormalCodeInv(st, line, comment, file, lineNo);
    }
  }

  lemma StepInv(st: DState, raw: string, file: string, lineNo: nat)
    requires Inv(st)
    ensures Step(st, raw, file, lineNo).Success? ==> Inv(Step(st, raw, file, lineNo).value)
  {
    var (line, comment) := SplitLineComment(raw);
    match st.mode
    case Normal =>
      NormalStepInv(st, line, comment, file, lineNo);
    case Chain =>
      BodyCommentInv(st, line, comment);
      if line != "" { ChainLineStepInv(BodyComment(st, line, comment), ClassifyChain(line), file, lineNo); }
    case State =>
      BodyCommentInv(st, line, comment);
      if line != "" { StateLineStepInv(BodyComment(st, line, comment), ClassifyState(line)); }
  }

  /** The invariant holds after every prefix of every file. */
  lemma {:induction false} RunInv(lines: seq<string>, file: string)
    ensures Run(lines, file).Success? ==> Inv(Run(lines, file).value)
  {
    if lines != [] {
      var prefix := lines[..|lines| - 1];
      RunInv(prefix, file);
      if Run(prefix, file).Success? {
        StepInv(Run(prefix, file).value, lines[|lines| - 1], file, |lines|);
      }
    }
  }

  /** Only PC occurrences get a reply index. */
  lemma ParseRepliesArePC(lines: seq<string>, file: string)
    ensures Parse(lines, file).Success? ==> RepliesArePC(Parse(lines, file).value)
  {
    RunInv(lines, file);
  }
}
