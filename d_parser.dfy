/** internal/d/parser.go: the dialogue-script (`.d`) parser.  `ParseReader`
    reads a file line by line in one of three modes and collects the text
    occurrences it finds; the small helpers split off `//` comments, strip
    the tildes of a condition, and recognise commented-out WeiDU code. */
module DParser {
  import opened Text
  import opened Wrappers
  import opened DPatterns

  // ---------------------------------------------------------------------------
  // splitLineComment

  /** `//` at `i` outside `~…~`: both slashes are on the line and an even
      number of tildes comes before them. */
  predicate IsMarker(s: string, i: nat) {
    i + 1 < |s| && s[i] == '/' && s[i + 1] == '/' && TildeCount(s[..i]) % 2 == 0
  }

  function TildeCount(s: string): nat {
    if s == [] then 0 else TildeCount(s[..|s| - 1]) + (if s[|s| - 1] == '~' then 1 else 0)
  }

  /** The scan of splitLineComment from `i`, with the tilde flag `inTilde`:
      the position of the first `//` outside tildes.  The loop stops one
      short of the end, so a lone final character is never looked at. */
  function MarkerFrom(s: string, i: nat, inTilde: bool): (r: Option<nat>)
    requires i <= |s|
    ensures r.Some? ==> i <= r.value && r.value + 1 < |s|
    decreases |s| - i
  {
    if i + 1 >= |s| then None
    else if s[i] == '~' then MarkerFrom(s, i + 1, !inTilde)
    else if !inTilde && s[i] == '/' && s[i + 1] == '/' then Some(i)
    else MarkerFrom(s, i + 1, inTilde)
  }

  /** splitLineComment: the trimmed code before the first `//` outside
      tildes and the trimmed comment after it; the whole line, trimmed, and
      no comment when there is none. */
  function SplitLineComment(s: string): (string, string) {
    match MarkerFrom(s, 0, false)
    case None => (TrimSpace(s), "")
    case Some(i) => (TrimSpace(s[..i]), TrimSpace(s[i + 2..]))
  }

  lemma TildeCountStep(s: string, i: nat)
    requires i < |s|
    ensures TildeCount(s[..i + 1]) == TildeCount(s[..i]) + (if s[i] == '~' then 1 else 0)
  {
    assert s[..i + 1][..i] == s[..i];
  }

  /** The scan from `i` finds the first marker at or after `i`, provided the
      flag is the parity of the tildes before `i`. */
  lemma {:induction false} MarkerFromIsFirst(s: string, i: nat, inTilde: bool)
    requires i <= |s| && inTilde == (TildeCount(s[..i]) % 2 == 1)
    ensures match MarkerFrom(s, i, inTilde)
            case None => forall j :: i <= j < |s| ==> !IsMarker(s, j)
            case Some(m) => i <= m && IsMarker(s, m) && forall j :: i <= j < m ==> !IsMarker(s, j)
    decreases |s| - i
  {
    if i + 1 < |s| {
      TildeCountStep(s, i);
      MarkerFromIsFirst(s, i + 1, if s[i] == '~' then !inTilde else inTilde);
    }
  }

  /** The comment starts at the first `//` with an even number of tildes
      before it; a `//` inside `~…~` never starts one. */
  lemma SplitLineCommentMarker(s: string)
    ensures match MarkerFrom(s, 0, false)
            case None => forall j :: 0 <= j < |s| ==> !IsMarker(s, j)
            case Some(m) => IsMarker(s, m) && forall j :: 0 <= j < m ==> !IsMarker(s, j)
  {
    MarkerFromIsFirst(s, 0, false);
  }

  /** splitLineComment's loop, run over the line. */
  method SplitLineCommentScan(line: string) returns (code: string, comment: string)
    ensures (code, comment) == SplitLineComment(line)
  {
    var inTilde := false;
    var i := 0;
    while i + 1 < |line|
      invariant i <= |line|
      invariant MarkerFrom(line, 0, false) == MarkerFrom(line, i, inTilde)
      decreases |line| - i
    {
      var ch := line[i];
      if ch == '~' {
        inTilde := !inTilde;
        i := i + 1;
        continue;
      }
      if !inTilde && ch == '/' && line[i + 1] == '/' {
        assert MarkerFrom(line, 0, false) == Some(i);
        code := TrimSpace(line[..i]);
        comment := TrimSpace(line[i + 2..]);
        return;
      }
      i := i + 1;
    }
    assert MarkerFrom(line, 0, false) == None;
    code := TrimSpace(line);
    comment := "";
  }

  // ---------------------------------------------------------------------------
  // normalizeCondition

  /** A condition between a pair of tildes. */
  predicate Wrapped(c: string) {
    |c| >= 2 && c[0] == '~' && c[|c| - 1] == '~'
  }

  /** normalizeCondition: trim, then drop one outer pair of tildes (and the
      blanks inside it) when there is one; `~~` becomes empty. */
  function NormalizeCondition(cond: string): (r: string)
    ensures Trimmed(r)
  {
    var c := TrimSpace(cond);
    if c == "~~" then ""
    else if Wrapped(c) then TrimSpace(c[1..|c| - 1])
    else c
  }

  /** Putting tildes around a text and normalizing gives the text back, trimmed. */
  lemma NormalizeUnwraps(x: string)
    ensures NormalizeCondition("~" + x + "~") == TrimSpace(x)
  {
    var c := "~" + x + "~";
    assert Trimmed(c);
    TrimmedFixed(c);
    assert c[1..|c| - 1] == x;
  }

  /** A condition without an outer pair of tildes only loses its blanks. */
  lemma NormalizeKeepsUnwrapped(cond: string)
    requires !Wrapped(TrimSpace(cond))
    ensures NormalizeCondition(cond) == TrimSpace(cond)
  {
  }

  /** The cases of the table test: a single or one-sided tilde stays. */
  lemma NormalizeConditionExamples()
    ensures NormalizeCondition("~~") == ""
    ensures NormalizeCondition("~abc") == "~abc"
    ensures NormalizeCondition("abc~") == "abc~"
    ensures NormalizeCondition("~") == "~"
    ensures NormalizeCondition("~~a~~") == "~a~"
  {
    TrimmedFixed("~~");
    TrimmedFixed("~abc");
    TrimmedFixed("abc~");
    TrimmedFixed("~");
    NormalizeStripsOnePair();
  }

  /** Only the outer pair of `~~a~~` goes. */
  lemma NormalizeStripsOnePair()
    ensures NormalizeCondition("~~a~~") == "~a~"
  {
    NormalizeUnwraps("~a~");
    TrimmedFixed("~a~");
    assert "~" + "~a~" + "~" == "~~a~~";
  }

  // ---------------------------------------------------------------------------
  // looksLikeWeiduCode

  /** The first of strings.Fields(t) for a trimmed, non-empty `t`: the run
      of non-blank characters it starts with. */
  function FirstFieldEnd(t: string, i: nat): (k: nat)
    requires i <= |t|
    ensures i <= k <= |t| && (k == |t| || IsSpace(t[k]))
    ensures forall j :: i <= j < k ==> !IsSpace(t[j])
    decreases |t| - i
  {
    if i == |t| || IsSpace(t[i]) then i else FirstFieldEnd(t, i + 1)
  }

  /** strings.ToUpper(tok) == w, for an upper-case ASCII word `w`. */
  predicate UpperEquals(tok: string, w: string) {
    |tok| == |w| && UpperWordAt(tok, 0, w)
  }

  /** The keywords that mark a comment as commented-out code. */
  predicate IsCodeKeyword(tok: string) {
    || UpperEquals(tok, "IF") || UpperEquals(tok, "CHAIN") || UpperEquals(tok, "BEGIN")
    || UpperEquals(tok, "SAY") || UpperEquals(tok, "DO") || UpperEquals(tok, "EXTERN")
    || UpperEquals(tok, "EXIT")
  }

  /** looksLikeWeiduCode: a comment whose text starts with `==` or `@`, or
      whose first word is one of the keywords above, in any case. */
  function LooksLikeWeiduCode(s: string): bool {
    var t := TrimSpace(s);
    if t == "" then false
    else if WordAt(t, 0, "==") || WordAt(t, 0, "@") then true
    else IsCodeKeyword(t[..FirstFieldEnd(t, 0)])
  }

  /** Blanks around a comment do not change the verdict. */
  lemma LooksLikeWeiduCodeTrims(s: string)
    ensures LooksLikeWeiduCode(TrimSpace(s)) == LooksLikeWeiduCode(s)
  {
    TrimmedFixed(TrimSpace(s));
  }

  /** An upper-case spelling that reads as an upper-case ASCII word has no
      blank, `=` or `@` in it. */
  lemma UpperSpellingHasNoBlank(w: string, kw: string)
    requires UpperEquals(w, kw) && forall m :: 0 <= m < |kw| ==> IsUpperAscii(kw[m])
    ensures forall j :: 0 <= j < |w| ==> !IsSpace(w[j]) && w[j] != '=' && w[j] != '@'
  {
    forall j | 0 <= j < |w|
      ensures !IsSpace(w[j]) && w[j] != '=' && w[j] != '@'
    {
      assert UpperIs(w[0 + j], kw[j]);
    }
  }

  /** No keyword has a blank in it, whatever its case. */
  lemma KeywordHasNoBlank(w: string)
    requires IsCodeKeyword(w)
    ensures forall j :: 0 <= j < |w| ==> !IsSpace(w[j]) && w[j] != '=' && w[j] != '@'
  {
    var kw := if UpperEquals(w, "IF") then "IF" else if UpperEquals(w, "CHAIN") then "CHAIN"
              else if UpperEquals(w, "BEGIN") then "BEGIN" else if UpperEquals(w, "SAY") then "SAY"
              else if UpperEquals(w, "DO") then "DO" else if UpperEquals(w, "EXTERN") then "EXTERN"
              else "EXIT";
    UpperSpellingHasNoBlank(w, kw);
  }

  /** A keyword, in any case, followed by a blank and anything at all reads
      as code. */
  lemma KeywordLooksLikeCode(w: string, rest: string)
    requires IsCodeKeyword(w)
    ensures LooksLikeWeiduCode(w + " " + rest)
  {
    KeywordHasNoBlank(w);
    var s := w + " " + rest;
    var t := TrimSpace(s);
    assert s[0] == w[0];
    assert LeadingSpace(s) == 0;
    assert forall j :: |t| <= j < |s| ==> IsSpace(s[j]) by {
      forall j | |t| <= j < |s| ensures IsSpace(s[j]) {
        assert s[|t|..][j - |t|] == s[j];
      }
    }
    assert !IsSpace(s[|w| - 1]);
    assert t[..|w|] == w;
    assert |t| > |w| ==> t[|w|] == ' ';
    FirstFieldEndAt(t, |w|);
  }

  /** The first field ends at the first blank. */
  lemma FirstFieldEndAt(t: string, k: nat)
    requires k <= |t| && (k == |t| || IsSpace(t[k]))
    requires forall j :: 0 <= j < k ==> !IsSpace(t[j])
    ensures FirstFieldEnd(t, 0) == k
  {
  }

  /** A comment whose trimmed text starts with `@` or `==` reads as code,
      whatever follows. */
  lemma MarkerPrefixIsCode(s: string)
    requires HasPrefix(TrimSpace(s), "@") || HasPrefix(TrimSpace(s), "==")
    ensures LooksLikeWeiduCode(s)
  {
    var t := TrimSpace(s);
    assert t != "";
    if HasPrefix(t, "@") {
      assert t[0..1] == t[..1];
    } else {
      assert t[0..2] == t[..2];
    }
  }

  /** The first word of a trimmed comment: strings.Fields(t)[0]. */
  function FirstWord(t: string): (w: string)
    ensures |w| <= |t| && w == t[..|w|] && forall j :: 0 <= j < |w| ==> !IsSpace(w[j])
    ensures |w| == |t| || IsSpace(t[|w|])
  {
    t[..FirstFieldEnd(t, 0)]
  }

  /** Otherwise the first word decides: a comment reads as code exactly when
      that word is a keyword, in any case. */
  lemma FirstWordDecides(s: string)
    requires TrimSpace(s) != "" && !HasPrefix(TrimSpace(s), "@") && !HasPrefix(TrimSpace(s), "==")
    ensures LooksLikeWeiduCode(s) <==> IsCodeKeyword(FirstWord(TrimSpace(s)))
  {
    var t := TrimSpace(s);
    assert t[0..1] == t[..1];
    if |t| >= 2 {
      assert t[0..2] == t[..2];
    }
  }

  // ---------------------------------------------------------------------------
  // The occurrences and the parser's cursor

  datatype Mode = Normal | Chain | State

  /** TextKind: the parser only produces NPC and PC; any other name is kept
      so that the exporter's default branch has something to skip. */
  datatype Kind = NPC | PC | OtherKind(name: string)

  /** TextOccurrence: one translatable text found in a dialogue file. */
  datatype Occurrence = Occurrence(
    traId: Option<nat>, kind: Kind, speaker: string, dialog: string, state: string,
    replyIndex: Option<nat>, toType: string, toDlg: Option<string>, toState: Option<string>,
    condition: string, notes: seq<string>)

  /** The locals of ParseReader that live across lines. */
  datatype DState = DState(
    out: seq<Occurrence>, dialog: string, state: string, speaker: string, replyIndex: nat,
    inState: bool, inExtend: bool, notes: seq<string>, stateCond: string,
    pendingHeader: string, mode: Mode, lastChain: int)

  const Initial := DState([], "", "", "", 0, false, false, [], "", "", Normal, -1)

  /** The text of an error: file name, line number, message. */
  function ErrorAt(file: string, lineNo: nat, msg: string): (r: string)
    ensures |r| > |file| + 2 + |msg| && r[..|file|] == file && r[|r| - |msg|..] == msg
  {
    var r := file + ":" + NatToString(lineNo) + ": " + msg;
    assert r[..|file|] == file;
    assert r[|r| - |msg|..] == msg;
    r
  }

  /** `lastChain` names an element of `out`, or is -1. */
  predicate Valid(st: DState) {
    -1 <= st.lastChain < |st.out|
  }

  // ---------------------------------------------------------------------------
  // Classifying a line, in the order each mode tries the patterns

  /** The shapes ParseReader looks for at top level, with their captures. */
  datatype NormalLine =
    | BeginDlgLine(name: string)
    | ExtendLine(dlg: string, st: string)
    | ChainHeaderLine(dlg: string, st: string)
    | StateLine(header: StateHeader)
    | EndLine
    | SayLine(id: nat)
    | ReplyLineL(reply: ReplyLine)
    | OtherLine

  function ClassifyNormal(line: string): NormalLine {
    match MatchBeginDlg(line)
    case Some(n) => BeginDlgLine(n)
    case None =>
    match MatchExtend(line)
    case Some(p) => ExtendLine(p.0, p.1)
    case None =>
    match MatchChainHeader(line)
    case Some(p) => ChainHeaderLine(p.0, p.1)
    case None =>
    match MatchBeginState(line)
    case Some(h) => StateLine(h)
    case None =>
    if EqualFoldAscii(line, "END") then EndLine
    else match MatchSay(line)
    case Some(id) => SayLine(id)
    case None =>
    match MatchReply(line)
    case Some(r) => ReplyLineL(r)
    case None => OtherLine
  }

  /** The shapes looked for inside a CHAIN body. */
  datatype ChainBodyLine =
    | ChainEnd
    | ChainExtern(dlg: string, st: string)
    | ChainExit
    | InterjectIfL(inter: InterjectIfLine)
    | InterjectL(speaker: string, id: nat)
    | ChainText(id: nat)
    | ChainOther

  function ClassifyChain(line: string): ChainBodyLine {
    if EqualFoldAscii(line, "END") then ChainEnd
    else match MatchExtern(line)
    case Some(p) => ChainExtern(p.0, p.1)
    case None =>
    if MatchExit(line) then ChainExit
    else match MatchInterjectIf(line)
    case Some(l) => InterjectIfL(l)
    case None =>
    match MatchInterject(line)
    case Some(p) => InterjectL(p.0, p.1)
    case None =>
    match MatchChainLine(line)
    case Some(id) => ChainText(id)
    case None => ChainOther
  }

  /** The shapes looked for inside an `IF … THEN BEGIN` state body.  A line
      with `DO` and `EXIT` is ignored like any other unmatched line. */
  datatype StateBodyLine =
    | StateEnd
    | StateSay(id: nat)
    | StateContinue
    | StateText(id: nat)
    | StateReply(reply: ReplyLine)
    | StateOther

  function ClassifyState(line: string): StateBodyLine {
    if EqualFoldAscii(line, "END") then StateEnd
    else match MatchSay(line)
    case Some(id) => StateSay(id)
    case None =>
    if line == "=" then StateContinue
    else match MatchChainLine(line)
    case Some(id) => StateText(id)
    case None =>
    match MatchReply(line)
    case Some(r) => StateReply(r)
    case None => StateOther
  }

  // ---------------------------------------------------------------------------
  // Building occurrences

  /** Where a reply leads, as ToType, ToDlg and ToState. */
  datatype Target = Target(toType: string, toDlg: Option<string>, toState: Option<string>)

  /** The target of a reply, from the text after its `@id`: EXTERN first
      (only at top level), then GOTO into the current dialog, then EXIT,
      else none. */
  function ReplyTarget(rest: string, dialog: string, allowExtern: bool): Target {
    match (if allowExtern then MatchExtern(rest) else None)
    case Some(p) => Target("EXTERN", Some(p.0), Some(p.1))
    case None =>
    match MatchGoto(rest)
    case Some(st) => Target("GOTO", Some(dialog), Some(st))
    case None => if MatchExit(rest) then Target("EXIT", None, None) else Target("", None, None)
  }

  /** An NPC text spoken by `speaker` in the current dialog and state. */
  function NpcOcc(st: DState, id: nat, speaker: string, cond: string): Occurrence {
    Occurrence(Some(id), NPC, speaker, st.dialog, st.state, None, "", None, None, cond, st.notes)
  }

  /** A PC reply in the current dialog and state, numbered by `replyIndex`. */
  function ReplyOcc(st: DState, id: nat, cond: string, t: Target): Occurrence {
    Occurrence(Some(id), PC, "", st.dialog, st.state, Some(st.replyIndex),
               t.toType, t.toDlg, t.toState, cond, st.notes)
  }

  /** Append an occurrence; the pending notes went into it. */
  function Emit(st: DState, o: Occurrence): DState {
    st.(out := st.out + [o], notes := [])
  }

  /** Append a text that a later EXTERN/EXIT in a CHAIN body may target. */
  function EmitTarget(st: DState, o: Occurrence): DState {
    Emit(st, o).(lastChain := |st.out|)
  }

  /** Append a reply and move on to the next reply index. */
  function EmitReply(st: DState, id: nat, cond: string, t: Target): DState {
    Emit(st, ReplyOcc(st, id, cond, t)).(replyIndex := st.replyIndex + 1)
  }

  /** Set the target of the text `lastChain` names, leaving the rest of it. */
  function Retarget(st: DState, toType: string, toDlg: Option<string>, toState: Option<string>): DState
    requires 0 <= st.lastChain < |st.out|
  {
    var o := st.out[st.lastChain];
    st.(out := st.out[st.lastChain := o.(toType := toType, toDlg := toDlg, toState := toState)])
  }

  function AddNote(st: DState, comment: string): DState {
    st.(notes := st.notes + [comment])
  }

  // ---------------------------------------------------------------------------
  // One line

  /** A joined CHAIN IF header is complete once `~ THEN` (in any case), or
      `~` followed by a tab or two blanks and `THEN`, appears in it. */
  predicate HeaderClosed(line: string) {
    UpperContains(line, "~ THEN") || Contains(line, "~\tTHEN") || Contains(line, "~  THEN")
  }

  /** A `CHAIN IF` header whose condition is still open. */
  predicate OpensChainHeader(line: string) {
    UpperWordAt(line, 0, "CHAIN IF") && Contains(line, "~") && !UpperContains(line, "~ THEN")
  }

  /** A top-level line after its comment has been split off. */
  function NormalStep(st: DState, line: string, comment: string, file: string, lineNo: nat): (r: Result<DState, string>)
    requires Valid(st)
    ensures r.Success? ==> Valid(r.value)
  {
    if st.pendingHeader != "" then
      var joined := st.pendingHeader + " " + line;
      if !HeaderClosed(joined) then Success(st.(pendingHeader := joined))
      else NormalCode(st.(pendingHeader := ""), joined, comment, file, lineNo)
    else if OpensChainHeader(line) then Success(st.(pendingHeader := line))
    else NormalCode(st, line, comment, file, lineNo)
  }

  /** Top level: comments first (only once a dialog is open), then the line. */
  function NormalCode(st: DState, line: string, comment: string, file: string, lineNo: nat): (r: Result<DState, string>)
    requires Valid(st)
    ensures r.Success? ==> Valid(r.value)
  {
    if line == "" && comment != "" then
      if LooksLikeWeiduCode(comment) then Success(st)
      else Success(if st.dialog != "" then AddNote(st, comment) else st)
    else
      var st1 := if comment != "" && st.dialog != "" then AddNote(st, comment) else st;
      if line == "" then Success(st1)
      else NormalLineStep(st1, ClassifyNormal(line), file, lineNo)
  }

  function NormalLineStep(st: DState, cls: NormalLine, file: string, lineNo: nat): (r: Result<DState, string>)
    requires Valid(st)
    ensures r.Success? ==> Valid(r.value)
  {
    match cls
    case BeginDlgLine(n) =>
      Success(st.(dialog := n, speaker := n, state := "", inState := false, inExtend := false,
             replyIndex := 0, stateCond := "", notes := []))
    case ExtendLine(d, s) =>
      var dlg := TrimSpace(d);
      Success(st.(dialog := dlg, speaker := dlg, state := TrimSpace(s), replyIndex := 0,
             inState := true, inExtend := true, mode := Normal))
    case ChainHeaderLine(d, s) =>
      Success(st.(dialog := if st.dialog == "" then d else st.dialog, speaker := d, state := s,
             replyIndex := 0, inState := true, mode := Chain, lastChain := -1))
    case StateLine(h) =>
      if st.dialog == "" then Failure(ErrorAt(file, lineNo, "state defined before BEGIN"))
      else Success(st.(state := h.state, speaker := st.dialog, stateCond := NormalizeCondition(h.cond),
                  replyIndex := 0, inState := true, mode := State))
    case EndLine =>
      Success(if st.inExtend then st.(inExtend := false, inState := false, state := "", speaker := "", dialog := "")
         else st)
    case SayLine(id) =>
      if st.dialog == "" || st.state == "" || !st.inState then Failure(ErrorAt(file, lineNo, "SAY outside state"))
      else Success(Emit(st, NpcOcc(st, id, st.speaker, "")))
    case ReplyLineL(r) =>
      if st.dialog == "" || st.state == "" || !st.inState then Failure(ErrorAt(file, lineNo, "REPLY outside state"))
      else Success(EmitReply(st, r.tail.id, NormalizeCondition(TrimSpace(r.cond)),
                        ReplyTarget(TrimSpace(r.tail.rest), st.dialog, true)))
    case OtherLine => Success(st)
  }

  /** Inside a CHAIN or state body every comment that is not commented-out
      code becomes a note, whether or not a dialog is open. */
  function BodyComment(st: DState, line: string, comment: string): DState {
    if line == "" && LooksLikeWeiduCode(comment) then st
    else if comment != "" then AddNote(st, comment)
    else st
  }

  function ChainLineStep(st: DState, cls: ChainBodyLine, file: string, lineNo: nat): (r: Result<DState, string>)
    requires Valid(st)
    ensures r.Success? ==> Valid(r.value)
  {
    match cls
    case ChainEnd => Success(st.(mode := Normal, inState := true, lastChain := -1))
    case ChainExtern(d, s) =>
      if st.lastChain < 0 then Failure(ErrorAt(file, lineNo, "EXTERN in CHAIN body without preceding text"))
      else Success(Retarget(st, "EXTERN", Some(d), Some(s)).(mode := Normal, inState := true, lastChain := -1))
    case ChainExit =>
      if st.lastChain < 0 then Failure(ErrorAt(file, lineNo, "EXIT in CHAIN body without preceding text"))
      else Success(Retarget(st, "EXIT", None, None).(mode := Normal, inState := true, lastChain := -1))
    case InterjectIfL(l) =>
      if st.dialog == "" || st.state == "" then Failure(ErrorAt(file, lineNo, "interjection outside dialog/state"))
      else Success(EmitTarget(st, NpcOcc(st, l.id, l.speaker, TrimSpace(l.cond))))
    case InterjectL(sp, id) =>
      if st.dialog == "" || st.state == "" then Failure(ErrorAt(file, lineNo, "interjection outside dialog/state"))
      else Success(EmitTarget(st, NpcOcc(st, id, sp, "")))
    case ChainText(id) =>
      if st.dialog == "" || st.state == "" || st.speaker == "" then Failure(ErrorAt(file, lineNo, "chain line outside dialog/state"))
      else Success(EmitTarget(st, NpcOcc(st, id, st.speaker, "")))
    case ChainOther => Success(st)
  }

  function StateLineStep(st: DState, cls: StateBodyLine): (r: DState)
    requires Valid(st)
    ensures Valid(r)
  {
    match cls
    case StateEnd => st.(inState := false, state := "", speaker := "", mode := Normal)
    case StateSay(id) => EmitTarget(st, NpcOcc(st, id, st.speaker, st.stateCond))
    case StateContinue => st
    case StateText(id) => EmitTarget(st, NpcOcc(st, id, st.speaker, st.stateCond))
    case StateReply(r) =>
      EmitReply(st, r.tail.id, NormalizeCondition(r.cond), ReplyTarget(TrimSpace(r.tail.rest), st.dialog, false))
    case StateOther => st
  }

  /** One iteration of ParseReader's loop, for line `lineNo` (counted from 1). */
  function Step(st: DState, raw: string, file: string, lineNo: nat): (r: Result<DState, string>)
    requires Valid(st)
    ensures r.Success? ==> Valid(r.value)
  {
    var (line, comment) := SplitLineComment(raw);
    match st.mode
    case Normal => NormalStep(st, line, comment, file, lineNo)
    case Chain =>
      var st1 := BodyComment(st, line, comment);
      if line == "" then Success(st1) else ChainLineStep(st1, ClassifyChain(line), file, lineNo)
    case State =>
      var st1 := BodyComment(st, line, comment);
      if line == "" then Success(st1) else Success(StateLineStep(st1, ClassifyState(line)))
  }

  // ---------------------------------------------------------------------------
  // The whole file

  /** The cursor after the lines `lines`, or the first error. */
  function Run(lines: seq<string>, file: string): (r: Result<DState, string>)
    ensures r.Success? ==> Valid(r.value)
  {
    if lines == [] then Success(Initial)
    else
      match Run(lines[..|lines| - 1], file)
      case Failure(e) => Failure(e)
      case Success(st) => Step(st, lines[|lines| - 1], file, |lines|)
  }

  /** ParseReader's result: the occurrences of a file, or its first error. */
  function Parse(lines: seq<string>, file: string): Result<seq<Occurrence>, string> {
    match Run(lines, file)
    case Failure(e) => Failure(e)
    case Success(st) => Success(st.out)
  }

  /** Running one more line is one more step. */
  lemma RunExtends(lines: seq<string>, file: string, i: nat)
    requires i < |lines| && Run(lines[..i], file).Success?
    ensures Run(lines[..i + 1], file) == Step(Run(lines[..i], file).value, lines[i], file, i + 1)
  {
    assert lines[..i + 1][..i] == lines[..i];
  }

  /** The first error stops the run: later lines do not change it. */
  lemma {:induction false} RunStopsAtError(lines: seq<string>, file: string, i: nat)
    requires i <= |lines| && Run(lines[..i], file).Failure?
    ensures Run(lines, file) == Run(lines[..i], file)
    decreases |lines| - i
  {
    if i < |lines| {
      assert lines[..i + 1][..i] == lines[..i];
      RunStopsAtError(lines, file, i + 1);
    } else {
      assert lines[..i] == lines;
    }
  }

  /** ParseReader: the scanning loop, one line per iteration, stopping at
      the first error. */
  method ParseReader(lines: seq<string>, file: string) returns (r: Result<seq<Occurrence>, string>)
    ensures r == Parse(lines, file)
  {
    var st := Initial;
    var lineNo := 0;
    while lineNo < |lines|
      invariant lineNo <= |lines|
      invariant Run(lines[..lineNo], file) == Success(st)
      decreases |lines| - lineNo
    {
      RunExtends(lines, file, lineNo);
      var next := Step(st, lines[lineNo], file, lineNo + 1);
      lineNo := lineNo + 1;
      if next.Failure? {
        RunStopsAtError(lines, file, lineNo);
        return Failure(next.error);
      }
      st := next.value;
    }
    assert lines[..lineNo] == lines;
    return Success(st.out);
  }
}
