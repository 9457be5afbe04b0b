/** What one line does to ParseReader's cursor (internal/d/parser.go:185-650),
    line kind by line kind: errors, notes, reply numbering, retargeting in
    CHAIN bodies, and the guard a state body copies onto its texts. */
module DParserSteps {
  import opened Text
  import opened Wrappers
  import opened DPatterns
  import opened DParser
  import opened DParserProps

  // ---------------------------------------------------------------------------
  // Comments

  /** A comment-only line holding commented-out code changes nothing, in
      every mode. */
  lemma CodeCommentIgnored(st: DState, raw: string, file: string, lineNo: nat, comment: string)
    requires Valid(st) && st.pendingHeader == ""
    requires SplitLineComment(raw) == ("", comment) && LooksLikeWeiduCode(comment)
    ensures Step(st, raw, file, lineNo) == Success(st)
  {
    assert comment != "";
  }

  /** Any other comment-only line becomes a note: always inside a CHAIN or
      state body, at top level only once a dialog is open. */
  lemma ProseCommentNoted(st: DState, raw: string, file: string, lineNo: nat, comment: string)
    requires Valid(st) && st.pendingHeader == ""
    requires SplitLineComment(raw) == ("", comment) && comment != "" && !LooksLikeWeiduCode(comment)
    ensures Step(st, raw, file, lineNo)
            == Success(if st.mode == Normal && st.dialog == "" then st
                       else st.(notes := st.notes + [comment]))
  {
  }

  /** Every text emitted takes the pending notes (with the comment of its
      own line, if any) and empties the buffer; no other line adds to or
      reorders the occurrences, it can at most retarget one of them. */
  lemma StepAppendsOrRetargets(st: DState, raw: string, file: string, lineNo: nat)
    requires Valid(st)
    ensures Step(st, raw, file, lineNo).Success? ==>
      var st' := Step(st, raw, file, lineNo).value;
      || (&& |st'.out| == |st.out| + 1 && st'.out[..|st.out|] == st.out && st'.notes == []
          && st'.out[|st.out|].notes in {st.notes, st.notes + [SplitLineComment(raw).1]})
      || (&& |st'.out| == |st.out|
          && forall k :: 0 <= k < |st.out| ==> SameText(st'.out[k], st.out[k]))
  {
    match st.mode
    case Normal => NormalStepShape(st, raw, file, lineNo);
    case Chain => ChainStepShape(st, raw, file, lineNo);
    case State => StateStepShape(st, raw, file, lineNo);
  }

  /** The two shapes StepAppendsOrRetargets allows, for a line whose comment
      is `comment`. */
  predicate AppendsOrRetargets(st: DState, st': DState, comment: string) {
    || (&& |st'.out| == |st.out| + 1 && st'.out[..|st.out|] == st.out && st'.notes == []
        && st'.out[|st.out|].notes in {st.notes, st.notes + [comment]})
    || (&& |st'.out| == |st.out|
        && forall k :: 0 <= k < |st.out| ==> SameText(st'.out[k], st.out[k]))
  }

  lemma NormalStepShape(st: DState, raw: string, file: string, lineNo: nat)
    requires Valid(st) && st.mode == Normal
    ensures Step(st, raw, file, lineNo).Success? ==>
      AppendsOrRetargets(st, Step(st, raw, file, lineNo).value, SplitLineComment(raw).1)
  {
    var (line, comment) := SplitLineComment(raw);
    assert Step(st, raw, file, lineNo) == NormalStep(st, line, comment, file, lineNo);
    if st.pendingHeader != "" {
      var joined := st.pendingHeader + " " + line;
      if HeaderClosed(joined) {
        NormalCodeShape(st.(pendingHeader := ""), joined, comment, file, lineNo);
      }
    } else if !OpensChainHeader(line) {
      NormalCodeShape(st, line, comment, file, lineNo);
    }
  }

  lemma ChainStepShape(st: DState, raw: string, file: string, lineNo: nat)
    requires Valid(st) && st.mode == Chain
    ensures Step(st, raw, file, lineNo).Success? ==>
      AppendsOrRetargets(st, Step(st, raw, file, lineNo).value, SplitLineComment(raw).1)
  {
    var (line, comment) := SplitLineComment(raw);
    var st1 := BodyComment(st, line, comment);
    assert st1.out == st.out && st1.notes in {st.notes, st.notes + [comment]};
    if line != "" {
      assert Step(st, raw, file, lineNo) == ChainLineStep(st1, ClassifyChain(line), file, lineNo);
      ChainLineShape(st1, ClassifyChain(line), file, lineNo);
    }
  }

  lemma StateStepShape(st: DState, raw: string, file: string, lineNo: nat)
    requires Valid(st) && st.mode == State
    ensures Step(st, raw, file, lineNo).Success? ==>
      AppendsOrRetargets(st, Step(st, raw, file, lineNo).value, SplitLineComment(raw).1)
  {
    var (line, comment) := SplitLineComment(raw);
    var st1 := BodyComment(st, line, comment);
    assert st1.out == st.out && st1.notes in {st.notes, st.notes + [comment]};
    if line != "" {
      assert Step(st, raw, file, lineNo) == Success(StateLineStep(st1, ClassifyState(line)));
      StateLineShape(st1, ClassifyState(line));
    }
  }

  /** Two occurrences that differ at most in ToType, ToDlg and ToState. */
  predicate SameText(a: Occurrence, b: Occurrence) {
    a == b.(toType := a.toType, toDlg := a.toDlg, toState := a.toState)
  }

  /** The shapes of one top-level step, before the comment is counted. */
  predicate AppendsWith(st: DState, st': DState, notes: seq<string>) {
    |st'.out| == |st.out| + 1 && st'.out[..|st.out|] == st.out && st'.notes == [] && st'.out[|st.out|].notes == notes
  }

  lemma EmitAppends(st: DState, o: Occurrence)
    ensures AppendsWith(st, Emit(st, o), o.notes)
  {
    assert (st.out + [o])[..|st.out|] == st.out;
  }

  lemma NormalLineShape(st: DState, cls: NormalLine, file: string, lineNo: nat)
    requires Valid(st)
    ensures NormalLineStep(st, cls, file, lineNo).Success? ==>
      var st' := NormalLineStep(st, cls, file, lineNo).value;
      AppendsWith(st, st', st.notes) || (st'.out == st.out)
  {
    match cls
    case SayLine(id) => EmitAppends(st, NpcOcc(st, id, st.speaker, ""));
    case ReplyLineL(r) =>
      var t := ReplyTarget(TrimSpace(r.tail.rest), st.dialog, true);
      EmitAppends(st, ReplyOcc(st, r.tail.id, NormalizeCondition(TrimSpace(r.cond)), t));
    case _ =>
  }

  lemma NormalCodeShape(st: DState, line: string, comment: string, file: string, lineNo: nat)
    requires Valid(st)
    ensures NormalCode(st, line, comment, file, lineNo).Success? ==>
      var st' := NormalCode(st, line, comment, file, lineNo).value;
      || (&& |st'.out| == |st.out| + 1 && st'.out[..|st.out|] == st.out && st'.notes == []
          && st'.out[|st.out|].notes in {st.notes, st.notes + [comment]})
      || st'.out == st.out
  {
    if !(line == "" && comment != "") && line != "" {
      var st1 := if comment != "" && st.dialog != "" then AddNote(st, comment) else st;
      NormalLineShape(st1, ClassifyNormal(line), file, lineNo);
    }
  }

  lemma ChainLineShape(st: DState, cls: ChainBodyLine, file: string, lineNo: nat)
    requires Valid(st)
    ensures ChainLineStep(st, cls, file, lineNo).Success? ==>
      var st' := ChainLineStep(st, cls, file, lineNo).value;
      || AppendsWith(st, st', st.notes)
      || (|st'.out| == |st.out| && forall k :: 0 <= k < |st.out| ==> SameText(st'.out[k], st.out[k]))
  {
    match cls
    case InterjectIfL(l) => EmitAppends(st, NpcOcc(st, l.id, l.speaker, TrimSpace(l.cond)));
    case InterjectL(sp, id) => EmitAppends(st, NpcOcc(st, id, sp, ""));
    case ChainText(id) => EmitAppends(st, NpcOcc(st, id, st.speaker, ""));
    case _ =>
  }

  lemma StateLineShape(st: DState, cls: StateBodyLine)
    requires Valid(st)
    ensures AppendsWith(st, StateLineStep(st, cls), st.notes) || StateLineStep(st, cls).out == st.out
  {
    match cls
    case StateSay(id) => EmitAppends(st, NpcOcc(st, id, st.speaker, st.stateCond));
    case StateText(id) => EmitAppends(st, NpcOcc(st, id, st.speaker, st.stateCond));
    case StateReply(r) =>
      var t := ReplyTarget(TrimSpace(r.tail.rest), st.dialog, false);
      EmitAppends(st, ReplyOcc(st, r.tail.id, NormalizeCondition(r.cond), t));
    case _ =>
  }

  // ---------------------------------------------------------------------------
  // Reaching the pattern tests

  /** The note a top-level line's comment adds, once a dialog is open. */
  function TopNote(st: DState, comment: string): DState {
    if comment != "" && st.dialog != "" then AddNote(st, comment) else st
  }

  /** A non-blank top-level line that does not open a CHAIN IF header goes
      to the pattern tests, after its comment has become a note. */
  lemma NormalStepTests(st: DState, raw: string, file: string, lineNo: nat, line: string)
    requires Valid(st) && st.mode == Normal && st.pendingHeader == ""
    requires SplitLineComment(raw).0 == line && line != "" && !OpensChainHeader(line)
    ensures Step(st, raw, file, lineNo)
            == NormalLineStep(TopNote(st, SplitLineComment(raw).1), ClassifyNormal(line), file, lineNo)
  {
  }

  /** A non-blank line of a CHAIN body goes to its pattern tests. */
  lemma ChainStepTests(st: DState, raw: string, file: string, lineNo: nat, line: string)
    requires Valid(st) && st.mode == Chain
    requires SplitLineComment(raw).0 == line && line != ""
    ensures Step(st, raw, file, lineNo)
            == ChainLineStep(BodyComment(st, line, SplitLineComment(raw).1), ClassifyChain(line), file, lineNo)
  {
  }

  /** A non-blank line of a state body goes to its pattern tests. */
  lemma StateStepTests(st: DState, raw: string, file: string, lineNo: nat, line: string)
    requires Valid(st) && st.mode == State
    requires SplitLineComment(raw).0 == line && line != ""
    ensures Step(st, raw, file, lineNo)
            == Success(StateLineStep(BodyComment(st, line, SplitLineComment(raw).1), ClassifyState(line)))
  {
  }

  // ---------------------------------------------------------------------------
  // CHAIN bodies: EXTERN and EXIT retarget the last text

  /** In a CHAIN body, EXTERN fails when no text came before it; otherwise
      it adds nothing, gives the last occurrence (an NPC text of this
      chain) the EXTERN target and leaves the body. */
  lemma ChainExternRetargets(st: DState, raw: string, file: string, lineNo: nat, line: string, d: string, s: string)
    requires Valid(st) && ChainTargetIsLast(st) && st.mode == Chain
    requires SplitLineComment(raw).0 == line && line != "" && ClassifyChain(line) == ChainExtern(d, s)
    ensures st.lastChain < 0 ==>
      Step(st, raw, file, lineNo) == Failure(ErrorAt(file, lineNo, "EXTERN in CHAIN body without preceding text"))
    ensures st.lastChain >= 0 ==>
      && Step(st, raw, file, lineNo).Success?
      && var st' := Step(st, raw, file, lineNo).value;
      && var last := |st.out| - 1;
      && last >= 0 && st.out[last].kind == NPC
      && st'.out == st.out[last := st.out[last].(toType := "EXTERN", toDlg := Some(d), toState := Some(s))]
      && st'.mode == Normal && st'.inState && st'.lastChain == -1
  {
    ChainStepTests(st, raw, file, lineNo, line);
    var st1 := BodyComment(st, line, SplitLineComment(raw).1);
    assert st1.out == st.out && st1.lastChain == st.lastChain && Valid(st1);
    assert ChainLineStep(st1, ChainExtern(d, s), file, lineNo)
           == if st.lastChain < 0 then Failure(ErrorAt(file, lineNo, "EXTERN in CHAIN body without preceding text"))
              else Success(Retarget(st1, "EXTERN", Some(d), Some(s)).(mode := Normal, inState := true, lastChain := -1));
  }

  /** The same for EXIT, which clears ToDlg and ToState. */
  lemma ChainExitRetargets(st: DState, raw: string, file: string, lineNo: nat, line: string)
    requires Valid(st) && ChainTargetIsLast(st) && st.mode == Chain
    requires SplitLineComment(raw).0 == line && line != "" && ClassifyChain(line) == ChainExit
    ensures st.lastChain < 0 ==>
      Step(st, raw, file, lineNo) == Failure(ErrorAt(file, lineNo, "EXIT in CHAIN body without preceding text"))
    ensures st.lastChain >= 0 ==>
      && Step(st, raw, file, lineNo).Success?
      && var st' := Step(st, raw, file, lineNo).value;
      && var last := |st.out| - 1;
      && last >= 0 && st.out[last].kind == NPC
      && st'.out == st.out[last := st.out[last].(toType := "EXIT", toDlg := None, toState := None)]
      && st'.mode == Normal && st'.inState && st'.lastChain == -1
  {
    ChainStepTests(st, raw, file, lineNo, line);
    var st1 := BodyComment(st, line, SplitLineComment(raw).1);
    assert st1.out == st.out && st1.lastChain == st.lastChain && Valid(st1);
    assert ChainLineStep(st1, ChainExit, file, lineNo)
           == if st.lastChain < 0 then Failure(ErrorAt(file, lineNo, "EXIT in CHAIN body without preceding text"))
              else Success(Retarget(st1, "EXIT", None, None).(mode := Normal, inState := true, lastChain := -1));
  }

  /** A CHAIN header starts a body with nothing to retarget yet, so an
      EXTERN or EXIT straight after it is an error. */
  lemma ChainHeaderOpensBody(st: DState, raw: string, file: string, lineNo: nat, line: string, d: string, s: string)
    requires Inv(st) && st.mode == Normal && st.pendingHeader == ""
    requires SplitLineComment(raw).0 == line && line != "" && !OpensChainHeader(line)
    requires ClassifyNormal(line) == ChainHeaderLine(d, s)
    ensures Step(st, raw, file, lineNo).Success?
    ensures var st' := Step(st, raw, file, lineNo).value;
      && st'.mode == Chain && st'.lastChain == -1 && st'.replyIndex == 0 && st'.inState
      && st'.speaker == d && st'.state == s
      && st'.dialog == (if st.dialog == "" then d else st.dialog)
      && st'.out == st.out
  {
    NormalStepTests(st, raw, file, lineNo, line);
  }

  /** BEGIN opens a dialog: its name becomes the dialog and the speaker,
      no state is open, EXTEND is over, and the notes gathered so far are
      dropped; nothing is emitted. */
  lemma BeginOpensDialog(st: DState, raw: string, file: string, lineNo: nat, line: string, n: string)
    requires Inv(st) && st.mode == Normal && st.pendingHeader == ""
    requires SplitLineComment(raw).0 == line && line != "" && !OpensChainHeader(line)
    requires ClassifyNormal(line) == BeginDlgLine(n)
    ensures Step(st, raw, file, lineNo).Success?
    ensures var st' := Step(st, raw, file, lineNo).value;
      && st'.dialog == n && st'.speaker == n && st'.state == "" && st'.stateCond == ""
      && !st'.inState && !st'.inExtend && st'.replyIndex == 0 && st'.notes == []
      && st'.mode == Normal && st'.out == st.out
  {
    NormalStepTests(st, raw, file, lineNo, line);
  }

  /** A file whose last line is a CHAIN header ends with the body still
      open, and that is no error: the parse gives what was emitted before. */
  lemma ChainOpenAtEndParses(pre: seq<string>, raw: string, file: string, line: string, d: string, s: string)
    requires Run(pre, file).Success?
    requires Run(pre, file).value.mode == Normal && Run(pre, file).value.pendingHeader == ""
    requires SplitLineComment(raw).0 == line && line != "" && !OpensChainHeader(line)
    requires ClassifyNormal(line) == ChainHeaderLine(d, s)
    ensures Run(pre + [raw], file).Success? && Run(pre + [raw], file).value.mode == Chain
    ensures Parse(pre + [raw], file) == Success(Run(pre, file).value.out)
  {
    var st := Run(pre, file).value;
    RunInv(pre, file);
    ChainHeaderOpensBody(st, raw, file, |pre| + 1, line, d, s);
    assert (pre + [raw])[..|pre + [raw]| - 1] == pre;
  }

  // ---------------------------------------------------------------------------
  // Errors and the reach of END

  /** A state header before any BEGIN is an error. */
  lemma StateBeforeBeginFails(st: DState, raw: string, file: string, lineNo: nat, line: string)
    requires Inv(st) && st.mode == Normal && st.pendingHeader == ""
    requires SplitLineComment(raw).0 == line && line != "" && !OpensChainHeader(line)
    requires ClassifyNormal(line).StateLine? && st.dialog == ""
    ensures Step(st, raw, file, lineNo) == Failure(ErrorAt(file, lineNo, "state defined before BEGIN"))
  {
    NormalStepTests(st, raw, file, lineNo, line);
  }

  /** A top-level SAY needs an open dialog and state. */
  lemma SayOutsideStateFails(st: DState, raw: string, file: string, lineNo: nat, line: string)
    requires Inv(st) && st.mode == Normal && st.pendingHeader == ""
    requires SplitLineComment(raw).0 == line && line != "" && !OpensChainHeader(line)
    requires ClassifyNormal(line).SayLine?
    ensures Step(st, raw, file, lineNo).Failure? <==> (st.dialog == "" || st.state == "" || !st.inState)
    ensures Step(st, raw, file, lineNo).Failure? ==>
      Step(st, raw, file, lineNo) == Failure(ErrorAt(file, lineNo, "SAY outside state"))
  {
    NormalStepTests(st, raw, file, lineNo, line);
    SayGuard(TopNote(st, SplitLineComment(raw).1), ClassifyNormal(line).id, file, lineNo);
  }

  lemma SayGuard(st: DState, id: nat, file: string, lineNo: nat)
    requires Valid(st)
    ensures NormalLineStep(st, SayLine(id), file, lineNo).Failure? <==> (st.dialog == "" || st.state == "" || !st.inState)
    ensures NormalLineStep(st, SayLine(id), file, lineNo).Failure? ==>
      NormalLineStep(st, SayLine(id), file, lineNo) == Failure(ErrorAt(file, lineNo, "SAY outside state"))
  {
  }

  /** A top-level REPLY needs an open dialog and state. */
  lemma ReplyOutsideStateFails(st: DState, raw: string, file: string, lineNo: nat, line: string)
    requires Inv(st) && st.mode == Normal && st.pendingHeader == ""
    requires SplitLineComment(raw).0 == line && line != "" && !OpensChainHeader(line)
    requires ClassifyNormal(line).ReplyLineL?
    ensures Step(st, raw, file, lineNo).Failure? <==> (st.dialog == "" || st.state == "" || !st.inState)
    ensures Step(st, raw, file, lineNo).Failure? ==>
      Step(st, raw, file, lineNo) == Failure(ErrorAt(file, lineNo, "REPLY outside state"))
  {
    NormalStepTests(st, raw, file, lineNo, line);
    var r := ClassifyNormal(line).reply;
    ReplyGuard(TopNote(st, SplitLineComment(raw).1), r, file, lineNo);
  }

  lemma ReplyGuard(st: DState, r: ReplyLine, file: string, lineNo: nat)
    requires Valid(st)
    ensures NormalLineStep(st, ReplyLineL(r), file, lineNo).Failure? <==> (st.dialog == "" || st.state == "" || !st.inState)
    ensures NormalLineStep(st, ReplyLineL(r), file, lineNo).Failure? ==>
      NormalLineStep(st, ReplyLineL(r), file, lineNo) == Failure(ErrorAt(file, lineNo, "REPLY outside state"))
  {
  }

  /** END closes a state body; the top-level REPLY that follows it then
      finds no open state and fails. */
  lemma ReplyAfterStateEndFails(st: DState, raw1: string, raw2: string, file: string, n1: nat, n2: nat, line2: string)
    requires Inv(st) && st.mode == State
    requires SplitLineComment(raw1).0 != "" && ClassifyState(SplitLineComment(raw1).0) == StateEnd
    requires SplitLineComment(raw2).0 == line2 && line2 != "" && !OpensChainHeader(line2)
    requires ClassifyNormal(line2).ReplyLineL?
    ensures Step(st, raw1, file, n1).Success?
    ensures Step(Step(st, raw1, file, n1).value, raw2, file, n2) == Failure(ErrorAt(file, n2, "REPLY outside state"))
  {
    var st1 := Step(st, raw1, file, n1).value;
    assert st1.mode == Normal && !st1.inState && st1.pendingHeader == "";
    StepInv(st, raw1, file, n1);
    ReplyOutsideStateFails(st1, raw2, file, n2, line2);
  }

  /** A top-level END closes an EXTEND block and nothing else. */
  lemma TopLevelEndClosesOnlyExtend(st: DState, raw: string, file: string, lineNo: nat, line: string)
    requires Inv(st) && st.mode == Normal && st.pendingHeader == ""
    requires SplitLineComment(raw).0 == line && line != "" && !OpensChainHeader(line)
    requires ClassifyNormal(line) == EndLine
    ensures Step(st, raw, file, lineNo).Success?
    ensures var st' := Step(st, raw, file, lineNo).value;
      && st'.out == st.out && st'.mode == Normal
      && (st.inExtend ==> st'.dialog == "" && st'.state == "" && st'.speaker == "" && !st'.inState && !st'.inExtend)
      && (!st.inExtend ==> st'.dialog == st.dialog && st'.state == st.state && st'.inState == st.inState)
  {
    NormalStepTests(st, raw, file, lineNo, line);
  }

  /** EXTEND stays at top level but opens a state in which SAY and REPLY
      are accepted. */
  lemma ExtendOpensState(st: DState, raw: string, file: string, lineNo: nat, line: string, d: string, s: string)
    requires Inv(st) && st.mode == Normal && st.pendingHeader == ""
    requires SplitLineComment(raw).0 == line && line != "" && !OpensChainHeader(line)
    requires ClassifyNormal(line) == ExtendLine(d, s)
    ensures Step(st, raw, file, lineNo).Success?
    ensures var st' := Step(st, raw, file, lineNo).value;
      && st'.mode == Normal && st'.inState && st'.inExtend && st'.replyIndex == 0
      && st'.dialog == TrimSpace(d) && st'.speaker == TrimSpace(d) && st'.state == TrimSpace(s)
      && st'.out == st.out
  {
    NormalStepTests(st, raw, file, lineNo, line);
  }

  // ---------------------------------------------------------------------------
  // Texts and replies

  /** A top-level SAY emits an NPC text of the open state with no guard,
      and does not make it a CHAIN target. */
  lemma TopLevelSay(st: DState, raw: string, file: string, lineNo: nat, line: string, id: nat)
    requires Inv(st) && st.mode == Normal && st.pendingHeader == ""
    requires SplitLineComment(raw).0 == line && line != "" && !OpensChainHeader(line)
    requires ClassifyNormal(line) == SayLine(id) && st.dialog != "" && st.state != "" && st.inState
    ensures Step(st, raw, file, lineNo).Success?
    ensures var st' := Step(st, raw, file, lineNo).value;
      && |st'.out| == |st.out| + 1 && st'.lastChain == st.lastChain
      && var o := st'.out[|st.out|];
      && o.kind == NPC && o.traId == Some(id) && o.condition == "" && o.replyIndex == None
      && o.speaker == st.speaker && o.dialog == st.dialog && o.state == st.state
  {
    NormalStepTests(st, raw, file, lineNo, line);
  }

  /** A top-level reply takes the current reply index, the next index
      follows it, and its target is looked for EXTERN first. */
  lemma TopLevelReply(st: DState, raw: string, file: string, lineNo: nat, line: string, r: ReplyLine)
    requires Inv(st) && st.mode == Normal && st.pendingHeader == ""
    requires SplitLineComment(raw).0 == line && line != "" && !OpensChainHeader(line)
    requires ClassifyNormal(line) == ReplyLineL(r) && st.dialog != "" && st.state != "" && st.inState
    ensures Step(st, raw, file, lineNo).Success?
    ensures var st' := Step(st, raw, file, lineNo).value;
      && |st'.out| == |st.out| + 1 && st'.replyIndex == st.replyIndex + 1
      && var o := st'.out[|st.out|];
      && o.kind == PC && o.traId == Some(r.tail.id) && o.replyIndex == Some(st.replyIndex)
      && o.speaker == "" && o.condition == NormalizeCondition(TrimSpace(r.cond))
      && Target(o.toType, o.toDlg, o.toState) == ReplyTarget(TrimSpace(r.tail.rest), st.dialog, true)
  {
    NormalStepTests(st, raw, file, lineNo, line);
  }

  /** A state header (`IF ~cond~ THEN BEGIN st`) inside an open dialog
      enters the state's body with its normalized guard, speaking as the
      dialog. */
  lemma StateHeaderEnters(st: DState, raw: string, file: string, lineNo: nat, line: string, h: StateHeader)
    requires Valid(st) && st.mode == Normal && st.pendingHeader == "" && st.dialog != ""
    requires SplitLineComment(raw).0 == line && line != "" && !OpensChainHeader(line)
    requires ClassifyNormal(line) == StateLine(h)
    ensures Step(st, raw, file, lineNo).Success?
    ensures var st' := Step(st, raw, file, lineNo).value;
      && st'.out == st.out && st'.mode == State && st'.state == h.state && st'.replyIndex == 0
      && st'.inState && st'.dialog == st.dialog && st'.speaker == st.dialog
      && st'.stateCond == NormalizeCondition(h.cond)
  {
    NormalStepTests(st, raw, file, lineNo, line);
  }

  /** A SAY or `@id` line of a state body appends an NPC text of that state
      that carries the state's guard and becomes the last text. */
  lemma StateBodyText(st: DState, raw: string, file: string, lineNo: nat, id: nat)
    requires Valid(st) && st.mode == State
    requires SplitLineComment(raw).0 != ""
    requires ClassifyState(SplitLineComment(raw).0) in {StateSay(id), StateText(id)}
    ensures Step(st, raw, file, lineNo).Success?
    ensures var st' := Step(st, raw, file, lineNo).value;
      && |st'.out| == |st.out| + 1 && st'.out[..|st.out|] == st.out && st'.lastChain == |st.out|
      && st'.out[|st.out|] == Occurrence(Some(id), NPC, st.speaker, st.dialog, st.state, None, "", None, None,
                                         st.stateCond, st'.out[|st.out|].notes)
  {
    var line := SplitLineComment(raw).0;
    StateStepTests(st, raw, file, lineNo, line);
    var st1 := BodyComment(st, line, SplitLineComment(raw).1);
    assert st1.out == st.out && st1.speaker == st.speaker && st1.dialog == st.dialog;
    assert st1.state == st.state && st1.stateCond == st.stateCond;
    var o := NpcOcc(st1, id, st1.speaker, st1.stateCond);
    assert StateLineStep(st1, ClassifyState(line)) == EmitTarget(st1, o);
    assert (st.out + [o])[..|st.out|] == st.out;
  }

  /** A state header copies its normalized guard onto the SAY and `@id`
      lines of its body. */
  lemma StateGuardCopied(st: DState, raw1: string, raw2: string, file: string, n1: nat, n2: nat,
                         line1: string, h: StateHeader, id: nat)
    requires Valid(st) && st.mode == Normal && st.pendingHeader == "" && st.dialog != ""
    requires SplitLineComment(raw1).0 == line1 && line1 != "" && !OpensChainHeader(line1)
    requires ClassifyNormal(line1) == StateLine(h)
    requires SplitLineComment(raw2).0 != ""
    requires ClassifyState(SplitLineComment(raw2).0) in {StateSay(id), StateText(id)}
    ensures Step(st, raw1, file, n1).Success?
    ensures var st1 := Step(st, raw1, file, n1).value;
      && st1.mode == State && st1.state == h.state && st1.replyIndex == 0
      && Step(st1, raw2, file, n2).Success?
      && var st2 := Step(st1, raw2, file, n2).value;
      && |st2.out| == |st.out| + 1
      && st2.out[|st.out|] == Occurrence(Some(id), NPC, st.dialog, st.dialog, h.state, None, "", None, None,
                                         NormalizeCondition(h.cond), st2.out[|st.out|].notes)
  {
    StateHeaderEnters(st, raw1, file, n1, line1, h);
    StateBodyText(Step(st, raw1, file, n1).value, raw2, file, n2, id);
  }

  /** A reply inside a state body carries its own guard, not the state's,
      and never gets an EXTERN target. */
  lemma StateReplyOwnGuard(st: DState, raw: string, file: string, lineNo: nat, line: string, r: ReplyLine)
    requires Inv(st) && st.mode == State
    requires SplitLineComment(raw).0 == line && line != "" && ClassifyState(line) == StateReply(r)
    ensures Step(st, raw, file, lineNo).Success?
    ensures var st' := Step(st, raw, file, lineNo).value;
      && |st'.out| == |st.out| + 1 && st'.replyIndex == st.replyIndex + 1
      && var o := st'.out[|st.out|];
      && o.kind == PC && o.replyIndex == Some(st.replyIndex) && o.condition == NormalizeCondition(r.cond)
      && Target(o.toType, o.toDlg, o.toState) == ReplyTarget(TrimSpace(r.tail.rest), st.dialog, false)
      && o.toType != "EXTERN"
  {
    StateStepTests(st, raw, file, lineNo, line);
    ReplyTargetOrder(TrimSpace(r.tail.rest), st.dialog, false);
  }

  // ---------------------------------------------------------------------------
  // Reply targets

  /** The order in which a reply's target is looked for: EXTERN (when
      allowed), then GOTO into the current dialog, then EXIT, else none. */
  lemma ReplyTargetOrder(rest: string, dialog: string, allowExtern: bool)
    ensures var t := ReplyTarget(rest, dialog, allowExtern);
      && (t.toType == "EXTERN" <==> allowExtern && MatchExtern(rest).Some?)
      && (t.toType == "GOTO" <==> !(allowExtern && MatchExtern(rest).Some?) && MatchGoto(rest).Some?)
      && (t.toType == "EXIT" <==>
            !(allowExtern && MatchExtern(rest).Some?) && MatchGoto(rest).None? && MatchExit(rest))
      && (t.toType == "" <==>
            !(allowExtern && MatchExtern(rest).Some?) && MatchGoto(rest).None? && !MatchExit(rest))
      && (t.toDlg.Some? <==> t.toType in {"EXTERN", "GOTO"})
      && (t.toState.Some? <==> t.toType in {"EXTERN", "GOTO"})
      && (t.toType == "GOTO" ==> t.toDlg == Some(dialog))
  {
  }

  /** An EXTERN target names the dialog and state an `EXTERN d s` in the
      text names, at the first place it occurs. */
  lemma ReplyExternTarget(rest: string, dialog: string)
    requires ReplyTarget(rest, dialog, true).toType == "EXTERN"
    ensures var t := ReplyTarget(rest, dialog, true);
      exists k :: 0 <= k <= |rest| && ExternAt(rest, k) == Some((t.toDlg.value, t.toState.value))
  {
    var k := FindExternFinds(rest, 0);
  }
}
