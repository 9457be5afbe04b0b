/** internal/tra/parser.go: the string-table (`.tra`) parser.  Each entry is
    `@<id> = ~text~`; a literal whose closing `~` is not on the opening line
    runs on over the following lines.  The result maps ids to texts. */
module TraParser {
  import opened Text
  import opened Wrappers

  // ---------------------------------------------------------------------------
  // Types

  /** ParseError: the file, the 1-based line and what was wrong. */
  datatype ParseError = ParseError(file: string, line: nat, msg: string)

  /** ParseError.Error: `file:line: message`. */
  function Message(e: ParseError): (r: string)
    ensures |e.file| + 4 + |e.msg| <= |r| && HasPrefix(r, e.file + ":")
    ensures r[|r| - |e.msg|..] == e.msg
    ensures var digits := r[|e.file| + 1..|r| - |e.msg| - 2];
      AllDigits(digits) && DigitsValue(digits) == e.line
  {
    var r := e.file + ":" + NatToString(e.line) + ": " + e.msg;
    assert r[|e.file| + 1..|r| - |e.msg| - 2] == NatToString(e.line);
    r
  }

  /** Tra: the texts of one file; None stands for Go's nil map.  NewTra is
      this constructor. */
  datatype Tra = Tra(texts: Option<map<nat, string>>)

  /** Between lines the parser is either looking for an entry or inside a
      literal that started on an earlier line. */
  datatype Mode = Normal | ReadMale

  /** The parser's locals between lines: the map built so far, the mode,
      the id of the literal being read and the text gathered for it. */
  datatype TraState = TraState(out: map<nat, string>, mode: Mode, curId: nat, b: string)

  const Start := TraState(map[], Normal, 0, "")

  /** Outside a literal nothing is gathered. */
  predicate Inv(st: TraState) {
    st.mode == Normal ==> st.b == ""
  }

  /** `b` keeps every entry of `a`, with the same text. */
  predicate Keeps(a: map<nat, string>, b: map<nat, string>) {
    forall k :: k in a ==> k in b && b[k] == a[k]
  }

  // ---------------------------------------------------------------------------
  // One line

  /** The number of digits at the start of `s`. */
  function DigitRun(s: string): (n: nat)
    ensures n <= |s| && AllDigits(s[..n]) && (n == |s| || !IsDigit(s[n]))
  {
    if s == [] || !IsDigit(s[0]) then 0
    else
      var n := 1 + DigitRun(s[1..]);
      assert s[..n] == [s[0]] + s[1..][..n - 1];
      n
  }

  /** Any digit prefix followed by a non-digit is the digit run. */
  lemma DigitRunIs(s: string, i: nat)
    requires i <= |s| && AllDigits(s[..i]) && (i == |s| || !IsDigit(s[i]))
    ensures DigitRun(s) == i
  {
    var n := DigitRun(s);
    assert forall j :: 0 <= j < n ==> s[..n][j] == s[j];
    assert forall j :: 0 <= j < i ==> s[..i][j] == s[j];
  }

  /** What an entry line tells the parser: the id and the text after the
      opening `~`. */
  datatype Entry = Entry(id: nat, right: string)

  /** An entry line, trimmed and starting with `@`: its id and the text
      after the opening `~`, or what is missing. */
  function ParseEntry(trim: string): (r: Result<Entry, string>)
    requires HasPrefix(trim, "@")
    ensures r == Failure("expected numeric id after @") <==> (|trim| == 1 || !IsDigit(trim[1]))
    ensures r.Success? ==> IsDigit(trim[1])
  {
    var afterAt := trim[1..];
    var i := DigitRun(afterAt);
    if i == 0 then Failure("expected numeric id after @")
    else AfterId(DigitsValue(afterAt[..i]), afterAt[i..])
  }

  /** The rest of an entry line after the id's digits. */
  function AfterId(id: nat, tail: string): (r: Result<Entry, string>)
    ensures r == Failure("expected '=' after id") <==> IndexByte(TrimSpace(tail), '=') < 0
    ensures r.Failure? ==> r.error in {"expected '=' after id", "expected '~' to start string literal"}
    ensures r.Success? ==> r.value.id == id
  {
    var rest := TrimSpace(tail);
    var eq := IndexByte(rest, '=');
    if eq < 0 then Failure("expected '=' after id")
    else Literal(id, TrimSpace(rest[eq + 1..]))
  }

  /** The text after the `=`, which must open a literal. */
  function Literal(id: nat, right: string): (r: Result<Entry, string>)
    ensures r.Success? <==> HasPrefix(right, "~")
    ensures r.Failure? ==> r.error == "expected '~' to start string literal"
    ensures r.Success? ==> r.value == Entry(id, right[1..])
  {
    if !HasPrefix(right, "~") then Failure("expected '~' to start string literal")
    else Success(Entry(id, right[1..]))
  }

  /** flushMale: store the gathered text under the current id, unless the
      id is taken. */
  function Flush(st: TraState, file: string, lineNo: nat): (r: Result<TraState, ParseError>)
    ensures r.Failure? <==> st.curId in st.out
    ensures r.Failure? ==> r.error == ParseError(file, lineNo, "duplicate string id @" + NatToString(st.curId) + " in file")
    ensures r.Success? ==> Keeps(st.out, r.value.out) && r.value.out.Keys == st.out.Keys + {st.curId}
    ensures r.Success? ==> r.value.out[st.curId] == st.b && r.value.b == ""
    ensures r.Success? ==> r.value.mode == st.mode && r.value.curId == st.curId
  {
    if st.curId in st.out then
      Failure(ParseError(file, lineNo, "duplicate string id @" + NatToString(st.curId) + " in file"))
    else Success(st.(out := st.out[st.curId := st.b], b := ""))
  }

  /** One line of the file, number `lineNo`. */
  function Step(st: TraState, line: string, file: string, lineNo: nat): (r: Result<TraState, ParseError>)
    ensures r.Failure? ==> r.error.file == file && r.error.line == lineNo
  {
    if st.mode == Normal then
      var trim := TrimSpace(line);
      if trim == "" || HasPrefix(trim, "//") || !HasPrefix(trim, "@") then Success(st)
      else
        match ParseEntry(trim)
        case Failure(msg) => Failure(ParseError(file, lineNo, msg))
        case Success(e) =>
          var end := IndexByte(e.right, '~');
          if end >= 0 then Flush(st.(curId := e.id, b := st.b + e.right[..end]), file, lineNo)
          else Success(st.(curId := e.id, mode := ReadMale, b := st.b + e.right + "\n"))
    else
      var end := IndexByte(line, '~');
      if end >= 0 then
        match Flush(st.(b := st.b + line[..end]), file, lineNo)
        case Failure(err) => Failure(err)
        case Success(st1) => Success(st1.(mode := Normal))
      else Success(st.(b := st.b + line + "\n"))
  }

  /** A line keeps every stored text, adds at most the current id, and
      outside a literal leaves nothing gathered. */
  lemma StepKeeps(st: TraState, line: string, file: string, lineNo: nat)
    ensures var r := Step(st, line, file, lineNo);
      r.Success? ==> Keeps(st.out, r.value.out) && r.value.out.Keys <= st.out.Keys + {r.value.curId}
    ensures var r := Step(st, line, file, lineNo);
      Inv(st) && r.Success? ==> Inv(r.value)
  {
    var r := Step(st, line, file, lineNo);
    if r.Success? {
      if st.mode == Normal {
        var trim := TrimSpace(line);
        if trim == "" || HasPrefix(trim, "//") || !HasPrefix(trim, "@") {
          assert r.value == st;
        } else {
          StepEntry(st, line, file, lineNo, ParseEntry(trim).value);
        }
      } else {
        StepInLiteral(st, line, file, lineNo);
      }
    }
  }

  // ---------------------------------------------------------------------------
  // The whole file

  /** The lines after line number `lineNo`, from state `st`: the first error
      stops the parse. */
  function Steps(st: TraState, lines: seq<string>, file: string, lineNo: nat): (r: Result<TraState, ParseError>)
    ensures r.Failure? ==> r.error.file == file && lineNo < r.error.line <= lineNo + |lines|
    decreases |lines|
  {
    if lines == [] then Success(st)
    else
      match Step(st, lines[0], file, lineNo + 1)
      case Failure(e) => Failure(e)
      case Success(st1) => Steps(st1, lines[1..], file, lineNo + 1)
  }

  /** The error for a literal still open at the end of the file. */
  function Unterminated(id: nat): string {
    "unterminated string literal for @" + NatToString(id)
  }

  /** ParseReader as a function of the lines: the texts, or the first error;
      a literal still open at the end is an error naming its id. */
  function Parse(lines: seq<string>, file: string): (r: Result<Tra, ParseError>)
    ensures r.Success? ==> r.value.texts.Some?
    ensures r.Failure? ==> r.error.file == file && 0 < r.error.line <= |lines|
  {
    match Steps(Start, lines, file, 0)
    case Failure(e) => Failure(e)
    case Success(st) =>
      if st.mode == ReadMale then
        Failure(ParseError(file, |lines|, Unterminated(st.curId)))
      else Success(Tra(Some(st.out)))
  }

  /** No line overwrites or drops a text once stored, and outside a
      literal nothing is left gathered. */
  lemma {:induction false} StepsKeep(st: TraState, lines: seq<string>, file: string, lineNo: nat)
    ensures Steps(st, lines, file, lineNo).Success? ==> Keeps(st.out, Steps(st, lines, file, lineNo).value.out)
    ensures Inv(st) && Steps(st, lines, file, lineNo).Success? ==> Inv(Steps(st, lines, file, lineNo).value)
    decreases |lines|
  {
    if lines != [] {
      var r := Step(st, lines[0], file, lineNo + 1);
      StepKeeps(st, lines[0], file, lineNo + 1);
      if r.Success? {
        StepsKeep(r.value, lines[1..], file, lineNo + 1);
      }
    }
  }

  /** A line that parses moves the fold on by one line. */
  lemma StepsNext(st: TraState, lines: seq<string>, k: nat, file: string, st1: TraState)
    requires k < |lines| && Step(st, lines[k], file, k + 1) == Success(st1)
    ensures Steps(st, lines[k..], file, k) == Steps(st1, lines[k + 1..], file, k + 1)
  {
    assert lines[k..][1..] == lines[k + 1..];
  }

  /** A line that fails ends the fold with its error. */
  lemma StepsFail(st: TraState, lines: seq<string>, k: nat, file: string, e: ParseError)
    requires k < |lines| && Step(st, lines[k], file, k + 1) == Failure(e)
    ensures Steps(st, lines[k..], file, k) == Failure(e)
  {
  }

  /** The part of ParseReader's loop that reads an entry line: the digit
      loop and the three checks after it. */
  method ReadEntry(trim: string) returns (r: Result<Entry, string>)
    requires HasPrefix(trim, "@")
    ensures r == ParseEntry(trim)
  {
    var afterAt := trim[1..];
    var i := 0;
    while i < |afterAt| && IsDigit(afterAt[i])
      invariant i <= |afterAt| && AllDigits(afterAt[..i])
    {
      i := i + 1;
    }
    DigitRunIs(afterAt, i);
    if i == 0 {
      return Failure("expected numeric id after @");
    }
    var id := DigitsValue(afterAt[..i]);
    assert ParseEntry(trim) == AfterId(id, afterAt[i..]);
    var rest := TrimSpace(afterAt[i..]);
    var eq := IndexByte(rest, '=');
    if eq < 0 {
      return Failure("expected '=' after id");
    }
    var right := TrimSpace(rest[eq + 1..]);
    assert ParseEntry(trim) == Literal(id, right);
    if !HasPrefix(right, "~") {
      return Failure("expected '~' to start string literal");
    }
    return Success(Entry(id, right[1..]));
  }

  /** ParseReader: the line loop, with the map, the mode, the current id and
      the text gathered so far as its locals. */
  method ParseReader(lines: seq<string>, fileName: string) returns (r: Result<Tra, ParseError>)
    ensures r == Parse(lines, fileName)
  {
    var out: map<nat, string> := map[];
    var m := Normal;
    var curId: nat := 0;
    var b: string := "";
    var lineNo := 0;
    while lineNo < |lines|
      invariant lineNo <= |lines|
      invariant Steps(Start, lines, fileName, 0) == Steps(TraState(out, m, curId, b), lines[lineNo..], fileName, lineNo)
    {
      var line := lines[lineNo];
      ghost var st := TraState(out, m, curId, b);
      ghost var k := lineNo;
      lineNo := lineNo + 1;
      if m == Normal {
        var trim := TrimSpace(line);
        if trim == "" || HasPrefix(trim, "//") {
          StepsNext(st, lines, k, fileName, st);
          continue;
        }
        if !HasPrefix(trim, "@") {
          StepsNext(st, lines, k, fileName, st);
          continue;
        }
        var entry := ReadEntry(trim);
        if entry.Failure? {
          r := Failure(ParseError(fileName, lineNo, entry.error));
          StepsFail(st, lines, k, fileName, r.error);
          return;
        }
        var id, right := entry.value.id, entry.value.right;
        curId := id;
        var end := IndexByte(right, '~');
        if end >= 0 {
          b := b + right[..end];
          if curId in out {
            r := Failure(ParseError(fileName, lineNo, "duplicate string id @" + NatToString(curId) + " in file"));
            StepsFail(st, lines, k, fileName, r.error);
            return;
          }
          out := out[curId := b];
          b := "";
          StepsNext(st, lines, k, fileName, TraState(out, m, curId, b));
          continue;
        }
        m := ReadMale;
        b := b + right + "\n";
        StepsNext(st, lines, k, fileName, TraState(out, m, curId, b));
      } else {
        var end := IndexByte(line, '~');
        if end >= 0 {
          b := b + line[..end];
          if curId in out {
            r := Failure(ParseError(fileName, lineNo, "duplicate string id @" + NatToString(curId) + " in file"));
            StepsFail(st, lines, k, fileName, r.error);
            return;
          }
          out := out[curId := b];
          b := "";
          m := Normal;
          StepsNext(st, lines, k, fileName, TraState(out, m, curId, b));
          continue;
        }
        b := b + line + "\n";
        StepsNext(st, lines, k, fileName, TraState(out, m, curId, b));
      }
    }
    if m == ReadMale {
      return Failure(ParseError(fileName, lineNo, Unterminated(curId)));
    }
    return Success(Tra(Some(out)));
  }

  // ---------------------------------------------------------------------------
  // Lookup

  /** The placeholder for an id the table does not hold. */
  function Missing(id: nat): (r: string)
    ensures HasPrefix(r, "#MISSING(@") && r[|r| - 1] == ')'
    ensures AllDigits(r[10..|r| - 1]) && DigitsValue(r[10..|r| - 1]) == id
  {
    var r := "#MISSING(@" + NatToString(id) + ")";
    assert r[10..|r| - 1] == NatToString(id);
    r
  }

  /** Tra.GetTextByID: "" without an id or without a table, the stored text
      for a known id, a placeholder naming the id otherwise. */
  function GetTextByID(t: Tra, id: Option<nat>): (r: string)
    ensures id.None? || t.texts.None? ==> r == ""
    ensures id.Some? && t.texts.Some? && id.value in t.texts.value ==> r == t.texts.value[id.value]
    ensures id.Some? && t.texts.Some? && id.value !in t.texts.value ==> r == Missing(id.value)
  {
    if id.None? || t.texts.None? then ""
    else if id.value in t.texts.value then t.texts.value[id.value]
    else Missing(id.value)
  }

  // ---------------------------------------------------------------------------
  // Properties

  predicate NoTilde(s: string) {
    forall k :: 0 <= k < |s| ==> s[k] != '~'
  }

  /** A non-empty run of digits: an id as an entry line spells it. */
  predicate IdDigits(ds: string) {
    ds != [] && AllDigits(ds)
  }

  /** The one-line entry `@<ds> = ~text~`. */
  function EntryLine(ds: string, text: string): string {
    "@" + ds + " = ~" + text + "~"
  }

  /** Each line of `ls` followed by a line break, as the multi-line mode
      gathers them. */
  function Lines(ls: seq<string>): string {
    if ls == [] then "" else ls[0] + "\n" + Lines(ls[1..])
  }

  /** After the id: ` = ~…`, with its `n`th character not white space. */
  lemma RightOfEquals(id: nat, u: string, n: nat) returns (right: string)
    requires 3 <= n < |u| && u[0] == ' ' && u[1] == '=' && u[2] == ' ' && u[3] == '~' && !IsSpace(u[n])
    ensures AfterId(id, u) == Literal(id, right)
    ensures n - 2 <= |right| && right[..n - 2] == u[3..n + 1]
    ensures n == |u| - 1 ==> right == u[3..]
  {
    var rest := TrimSpace(u);
    SkipEquals(u, n);
    var v := rest[1..];
    assert AfterId(id, u) == Literal(id, TrimSpace(v));
    TrimOneSpace(v, n - 2);
    right := TrimSpace(v);
    if n == |u| - 1 {
      assert |right| == n - 2;
    }
  }

  /** The blank-trimmed text after the id starts with the `=`; what follows
      it keeps the characters of `u` from index 2 on. */
  lemma SkipEquals(u: string, n: nat)
    requires 3 <= n < |u| && u[0] == ' ' && u[1] == '=' && u[2] == ' ' && u[3] == '~' && !IsSpace(u[n])
    ensures n <= |TrimSpace(u)| < |u| && TrimSpace(u)[0] == '=' && IndexByte(TrimSpace(u), '=') == 0
    ensures var v := TrimSpace(u)[1..];
      v[0] == ' ' && !IsSpace(v[1]) && !IsSpace(v[n - 2]) && v[..n - 1] == u[2..n + 1]
  {
    var rest := TrimSpace(u);
    TrimOneSpace(u, n);
    assert rest[0] == rest[..n][0];
    IndexByteAt(rest, '=', 0);
    var v := rest[1..];
    assert v[..n - 1] == rest[1..n];
    assert v[..n - 1] == u[2..n + 1];
    assert v[0] == v[..n - 1][0] && v[1] == v[..n - 1][1] && v[n - 2] == v[..n - 1][n - 2];
  }

  /** Text behind one leading blank, up to a non-blank at `p`. */
  lemma TrimOneSpace(s: string, p: nat)
    requires 1 <= p < |s| && s[0] == ' ' && !IsSpace(s[1]) && !IsSpace(s[p])
    ensures p <= |TrimSpace(s)| < |s| && TrimSpace(s)[..p] == s[1..p + 1]
  {
    assert AllSpace(s[..1]);
    TrimSpaceKeeps(s, 1, p);
  }

  lemma EntryLineParts(ds: string, text: string)
    ensures var e := EntryLine(ds, text);
      |e| == |ds| + 6 + |text| && e[0] == '@' && e[1..|ds| + 1] == ds && e[|ds| + 1..|ds| + 5] == " = ~"
      && e[|ds| + 5..|ds| + 5 + |text|] == text && e[|ds| + 5 + |text|] == '~'
  {
  }

  lemma PrefixSlice(t: string, e: string, a: nat, b: nat)
    requires |e| <= |t| && t[..|e|] == e && a <= b <= |e|
    ensures t[a..b] == e[a..b]
  {
    forall k | 0 <= k < b - a ensures t[a..b][k] == e[a..b][k] {
      assert e[a + k] == t[..|e|][a + k];
    }
  }

  /** A slice of a slice is a slice. */
  lemma SliceOfSlice(s: string, i: nat, j: nat, a: nat, b: nat)
    requires i <= j <= |s| && a <= b <= j - i
    ensures s[i..j][a..b] == s[i + a..i + b]
  {
    forall k | 0 <= k < b - a ensures s[i..j][a..b][k] == s[i + a..i + b][k] {
    }
  }

  /** A line `@<ds> …` parses, after the digits, as the rest of the line. */
  lemma IdThenRest(ds: string, t: string) returns (u: string)
    requires IdDigits(ds) && |ds| + 2 <= |t| && t[0] == '@' && t[1..|ds| + 1] == ds && t[|ds| + 1] == ' '
    ensures HasPrefix(t, "@") && u == t[|ds| + 1..] && ParseEntry(t) == AfterId(DigitsValue(ds), u)
  {
    var afterAt := t[1..];
    assert afterAt[..|ds|] == ds;
    DigitRunIs(afterAt, |ds|);
    u := afterAt[|ds|..];
  }

  /** A line that begins with `@<ds> = ~text~` parses to that id, and the
      closing `~` ends the text. */
  lemma EntryPrefixParses(ds: string, text: string, t: string) returns (e: Entry)
    requires IdDigits(ds) && NoTilde(text)
    requires |ds| + 6 + |text| <= |t| && t[0] == '@' && t[1..|ds| + 1] == ds
    requires t[|ds| + 1..|ds| + 5] == " = ~" && t[|ds| + 5..|ds| + 5 + |text|] == text && t[|ds| + 5 + |text|] == '~'
    ensures HasPrefix(t, "@") && ParseEntry(t) == Success(e)
    ensures e.id == DigitsValue(ds) && IndexByte(e.right, '~') == |text| && e.right[..|text|] == text
  {
    var n := |ds|;
    AfterIdShape(t, n, text);
    var u := IdThenRest(ds, t);
    var right := RightOfEquals(DigitsValue(ds), u, 4 + |text|);
    e := Entry(DigitsValue(ds), right[1..]);
    LiteralShape(right, u, text);
  }

  lemma AfterIdShape(t: string, n: nat, text: string)
    requires n + 6 + |text| <= |t|
    requires t[n + 1..n + 5] == " = ~" && t[n + 5..n + 5 + |text|] == text && t[n + 5 + |text|] == '~'
    ensures var u := t[n + 1..];
      u[0] == ' ' && u[1] == '=' && u[2] == ' ' && u[3] == '~' && t[n + 1] == ' '
      && u[4..4 + |text|] == text && u[4 + |text|] == '~'
  {
    var u := t[n + 1..];
    assert u[..4] == t[n + 1..n + 5];
    assert u[4..4 + |text|] == t[n + 5..n + 5 + |text|];
  }

  lemma LiteralShape(right: string, u: string, text: string)
    requires 4 + |text| < |u| && 2 + |text| <= |right| && right[..2 + |text|] == u[3..5 + |text|]
    requires u[3] == '~' && u[4..4 + |text|] == text && u[4 + |text|] == '~' && NoTilde(text)
    ensures HasPrefix(right, "~")
    ensures IndexByte(right[1..], '~') == |text| && right[1..][..|text|] == text
  {
    assert right[0] == right[..2 + |text|][0] == u[3];
    HasPrefixChar(right, '~');
    var v := right[1..];
    forall j | 0 <= j <= |text| ensures v[j] == u[4 + j] {
      assert v[j] == right[..2 + |text|][1 + j] == u[3..5 + |text|][1 + j];
    }
    forall j | 0 <= j < |text| ensures v[..|text|][j] == text[j] {
      assert u[4 + j] == u[4..4 + |text|][j];
    }
    IndexByteAt(v, '~', |text|);
  }

  /** The first `c` in `s` is at `i`. */
  lemma IndexByteAt(s: string, c: char, i: nat)
    requires i < |s| && s[i] == c && forall j :: 0 <= j < i ==> s[j] != c
    ensures IndexByte(s, c) == i
  {
    var r := IndexByte(s, c);
    assert r != -1 && !(0 <= r < i) && !(i < r);
  }

  /** An entry line `@<ds> = ~text~…` parses to its id, whatever follows
      the closing `~`. */
  lemma EntryLineParses(ds: string, text: string, tail: string) returns (e: Entry)
    requires IdDigits(ds) && NoTilde(text)
    ensures var trim := TrimSpace(EntryLine(ds, text) + tail);
      HasPrefix(trim, "@") && ParseEntry(trim) == Success(e)
    ensures e.id == DigitsValue(ds) && IndexByte(e.right, '~') == |text| && e.right[..|text|] == text
  {
    var entry := EntryLine(ds, text);
    var line := entry + tail;
    var p := |ds| + 5 + |text|;
    EntryLineParts(ds, text);
    assert line[..p + 1] == entry;
    assert line[p] == '~';
    assert AllSpace(line[..0]);
    TrimSpaceKeeps(line, 0, p);
    var t := TrimSpace(line);
    assert t[..p + 1] == entry;
    PrefixSlice(t, entry, 1, |ds| + 1);
    PrefixSlice(t, entry, |ds| + 1, |ds| + 5);
    PrefixSlice(t, entry, |ds| + 5, |ds| + 5 + |text|);
    assert t[0] == entry[0];
    assert t[p] == entry[p];
    e := EntryPrefixParses(ds, text, t);
  }

  /** A line that starts with `@` does not start with `//`. */
  lemma AtIsNotComment(trim: string)
    requires HasPrefix(trim, "@")
    ensures trim != "" && !HasPrefix(trim, "//")
  {
    assert trim[0] == trim[..1][0] == '@';
    if |trim| >= 2 {
      assert trim[..2][0] == '@' != "//"[0];
    }
  }

  /** Step on a line that starts an entry. */
  lemma StepEntry(st: TraState, line: string, file: string, lineNo: nat, e: Entry)
    requires st.mode == Normal && HasPrefix(TrimSpace(line), "@") && ParseEntry(TrimSpace(line)) == Success(e)
    ensures var end := IndexByte(e.right, '~');
      Step(st, line, file, lineNo)
      == if end >= 0 then Flush(st.(curId := e.id, b := st.b + e.right[..end]), file, lineNo)
         else Success(st.(curId := e.id, mode := ReadMale, b := st.b + e.right + "\n"))
  {
    AtIsNotComment(TrimSpace(line));
  }

  /** Step on a line inside a literal. */
  lemma StepInLiteral(st: TraState, line: string, file: string, lineNo: nat)
    requires st.mode == ReadMale
    ensures var end := IndexByte(line, '~');
      Step(st, line, file, lineNo)
      == if end >= 0 then
           match Flush(st.(b := st.b + line[..end]), file, lineNo)
           case Failure(err) => Failure(err)
           case Success(st1) => Success(st1.(mode := Normal))
         else Success(st.(b := st.b + line + "\n"))
  {
  }

  /** The fold takes one line at a time. */
  lemma StepsFirst(st: TraState, ls: seq<string>, file: string, lineNo: nat)
    requires ls != []
    ensures Steps(st, ls, file, lineNo)
            == match Step(st, ls[0], file, lineNo + 1)
               case Failure(e) => Failure(e)
               case Success(st1) => Steps(st1, ls[1..], file, lineNo + 1)
  {
  }

  /** Outside a literal, a blank line, a `//` comment or any line not
      starting with `@` changes nothing. */
  lemma SkipLine(st: TraState, line: string, file: string, lineNo: nat)
    requires st.mode == Normal
    requires TrimSpace(line) == "" || HasPrefix(TrimSpace(line), "//") || !HasPrefix(TrimSpace(line), "@")
    ensures Step(st, line, file, lineNo) == Success(st)
  {
  }

  /** A one-line entry stores the text up to the first closing `~`;
      whatever follows on the line is ignored. */
  lemma SingleLineEntry(st: TraState, ds: string, text: string, tail: string, file: string, lineNo: nat)
    requires st.mode == Normal && st.b == "" && IdDigits(ds) && DigitsValue(ds) !in st.out && NoTilde(text)
    ensures Step(st, EntryLine(ds, text) + tail, file, lineNo)
            == Success(TraState(st.out[DigitsValue(ds) := text], Normal, DigitsValue(ds), ""))
  {
    var e := EntryLineParses(ds, text, tail);
    StepEntry(st, EntryLine(ds, text) + tail, file, lineNo, e);
    EntryCloses(st, e, text, file, lineNo);
  }

  /** An entry whose literal closes on its own line is flushed at once. */
  lemma EntryCloses(st: TraState, e: Entry, text: string, file: string, lineNo: nat)
    requires st.b == "" && e.id !in st.out && IndexByte(e.right, '~') == |text| && e.right[..|text|] == text
    ensures Flush(st.(curId := e.id, b := st.b + e.right[..IndexByte(e.right, '~')]), file, lineNo)
            == Success(TraState(st.out[e.id := text], st.mode, e.id, ""))
  {
    assert st.b + e.right[..IndexByte(e.right, '~')] == text;
  }

  /** An id that is already in the table is an error, never an overwrite. */
  lemma DuplicateEntry(st: TraState, ds: string, text: string, tail: string, file: string, lineNo: nat)
    requires st.mode == Normal && IdDigits(ds) && DigitsValue(ds) in st.out && NoTilde(text)
    ensures Step(st, EntryLine(ds, text) + tail, file, lineNo)
            == Failure(ParseError(file, lineNo, "duplicate string id @" + NatToString(DigitsValue(ds)) + " in file"))
  {
    var e := EntryLineParses(ds, text, tail);
    StepEntry(st, EntryLine(ds, text) + tail, file, lineNo, e);
  }

  lemma OpenLineParts(ds: string, first: string)
    ensures var t := "@" + ds + " = ~" + first;
      |t| == |ds| + 5 + |first| && t[0] == '@' && t[1..|ds| + 1] == ds && t[|ds| + 1..|ds| + 5] == " = ~"
      && t[|ds| + 5..] == first && t[|t| - 1] == (if first == [] then '~' else first[|first| - 1])
  {
  }

  /** A line `@<ds> = ~first` whose literal does not close parses to that
      id, with `first` as the start of the text. */
  lemma OpenPrefixParses(ds: string, first: string, t: string)
    requires IdDigits(ds) && (first == [] || !IsSpace(first[|first| - 1]))
    requires |t| == |ds| + 5 + |first| && t[0] == '@' && t[1..|ds| + 1] == ds
    requires t[|ds| + 1..|ds| + 5] == " = ~" && t[|ds| + 5..] == first
    requires t[|t| - 1] == (if first == [] then '~' else first[|first| - 1])
    ensures HasPrefix(t, "@") && ParseEntry(t) == Success(Entry(DigitsValue(ds), first))
  {
    var u := OpenLineRest(ds, first, t);
    var u' := IdThenRest(ds, t);
    OpenRight(DigitsValue(ds), u, first);
  }

  /** The part of an opening line after the id's digits. */
  lemma OpenLineRest(ds: string, first: string, t: string) returns (u: string)
    requires IdDigits(ds) && (first == [] || !IsSpace(first[|first| - 1]))
    requires |t| == |ds| + 5 + |first| && t[0] == '@' && t[1..|ds| + 1] == ds
    requires t[|ds| + 1..|ds| + 5] == " = ~" && t[|ds| + 5..] == first
    requires t[|t| - 1] == (if first == [] then '~' else first[|first| - 1])
    ensures |ds| + 2 <= |t| && t[|ds| + 1] == ' ' && u == t[|ds| + 1..]
    ensures |u| == 4 + |first| && u[0] == ' ' && u[1] == '=' && u[2] == ' ' && u[3] == '~' && u[4..] == first
    ensures !IsSpace(u[|u| - 1])
  {
    var n := |ds|;
    assert t[n + 1] == t[n + 1..n + 5][0] == ' ';
    u := t[n + 1..];
    EqualsTilde(t, n, u);
    assert u[4..] == t[n + 5..];
  }

  /** ` = ~first` after the id, with nothing after `first`. */
  lemma OpenRight(id: nat, u: string, first: string)
    requires |u| == 4 + |first| && u[0] == ' ' && u[1] == '=' && u[2] == ' ' && u[3] == '~' && u[4..] == first
    requires !IsSpace(u[|u| - 1])
    ensures AfterId(id, u) == Success(Entry(id, first))
  {
    var right := RightOfEquals(id, u, |u| - 1);
    assert right[1..] == u[4..];
    HasPrefixChar(right, '~');
  }

  lemma EqualsTilde(t: string, n: nat, u: string)
    requires n + 5 <= |t| && t[n + 1..n + 5] == " = ~" && u == t[n + 1..]
    ensures u[0] == ' ' && u[1] == '=' && u[2] == ' ' && u[3] == '~' && u[|u| - 1] == t[|t| - 1]
  {
    assert u[..4] == t[n + 1..n + 5];
  }

  /** An entry whose literal stays open is gathered from its first line. */
  lemma EntryOpens(st: TraState, e: Entry)
    requires st.b == "" && NoTilde(e.right)
    ensures IndexByte(e.right, '~') < 0
    ensures st.(curId := e.id, mode := ReadMale, b := st.b + e.right + "\n")
            == TraState(st.out, ReadMale, e.id, e.right + "\n")
  {
  }

  /** `@<ds> = ~first` with no closing `~` starts a multi-line literal. */
  lemma OpenLiteral(st: TraState, ds: string, first: string, file: string, lineNo: nat)
    requires st.mode == Normal && st.b == "" && IdDigits(ds) && NoTilde(first)
    requires first == [] || !IsSpace(first[|first| - 1])
    ensures Step(st, "@" + ds + " = ~" + first, file, lineNo)
            == Success(TraState(st.out, ReadMale, DigitsValue(ds), first + "\n"))
  {
    var line := "@" + ds + " = ~" + first;
    OpenLineParts(ds, first);
    TrimmedFixed(line);
    OpenPrefixParses(ds, first, line);
    StepEntry(st, line, file, lineNo, Entry(DigitsValue(ds), first));
    EntryOpens(st, Entry(DigitsValue(ds), first));
  }

  /** Inside a literal, a line without `~` (one starting with `@`
      included) is text: it is gathered with a line break after it. */
  lemma {:induction false} ContentLines(st: TraState, ls: seq<string>, file: string, lineNo: nat)
    requires st.mode == ReadMale && forall j :: 0 <= j < |ls| ==> NoTilde(ls[j])
    ensures Steps(st, ls, file, lineNo) == Success(st.(b := st.b + Lines(ls)))
    decreases |ls|
  {
    if ls != [] {
      var st1 := st.(b := st.b + ls[0] + "\n");
      ContentStep(st, ls[0], file, lineNo + 1);
      StepsCons(st, ls, file, lineNo, st1);
      assert forall j :: 0 <= j < |ls[1..]| ==> NoTilde(ls[1..][j]);
      ContentLines(st1, ls[1..], file, lineNo + 1);
      GatherNext(st.b, ls);
    } else {
      assert st.b + Lines(ls) == st.b;
    }
  }

  /** The first line with a `~` ends the literal: its text up to the `~`
      completes the entry, and the parser looks for entries again. */
  lemma CloseLiteral(st: TraState, c: string, tail: string, file: string, lineNo: nat)
    requires st.mode == ReadMale && st.curId !in st.out && NoTilde(c)
    ensures Step(st, c + "~" + tail, file, lineNo)
            == Success(TraState(st.out[st.curId := st.b + c], Normal, st.curId, ""))
  {
    var line := c + "~" + tail;
    assert line[|c|] == '~';
    assert line[..|c|] == c;
    StepInLiteral(st, line, file, lineNo);
  }

  /** Inside a literal, lines without `~` are gathered and the line after
      them is read with everything gathered so far. */
  lemma {:induction false} ContentThenLine(st: TraState, ls: seq<string>, last: string, file: string, lineNo: nat)
    requires st.mode == ReadMale && forall j :: 0 <= j < |ls| ==> NoTilde(ls[j])
    ensures Steps(st, ls + [last], file, lineNo) == Step(st.(b := st.b + Lines(ls)), last, file, lineNo + |ls| + 1)
    decreases |ls|
  {
    if ls == [] {
      assert ls + [last] == [last];
      assert st.b + Lines(ls) == st.b;
      StepsOne(st, last, file, lineNo, Step(st, last, file, lineNo + 1));
    } else {
      var zs := ls + [last];
      assert zs[0] == ls[0] && zs[1..] == ls[1..] + [last];
      var st1 := st.(b := st.b + ls[0] + "\n");
      ContentStep(st, ls[0], file, lineNo + 1);
      StepsCons(st, zs, file, lineNo, st1);
      assert forall j :: 0 <= j < |ls[1..]| ==> NoTilde(ls[1..][j]);
      ContentThenLine(st1, ls[1..], last, file, lineNo + 1);
      GatherNext(st.b, ls);
    }
  }

  /** Gathering the first line, then the others, gathers them all. */
  lemma GatherNext(b: string, ls: seq<string>)
    requires ls != []
    ensures b + ls[0] + "\n" + Lines(ls[1..]) == b + Lines(ls)
  {
    assert Lines(ls) == ls[0] + "\n" + Lines(ls[1..]);
  }

  /** A line without `~` inside a literal is gathered, with a line break. */
  lemma ContentStep(st: TraState, line: string, file: string, lineNo: nat)
    requires st.mode == ReadMale && NoTilde(line)
    ensures Step(st, line, file, lineNo) == Success(st.(b := st.b + line + "\n"))
  {
    assert IndexByte(line, '~') < 0;
  }

  /** A line that parses moves the fold on to the next line. */
  lemma StepsCons(st: TraState, zs: seq<string>, file: string, lineNo: nat, st1: TraState)
    requires zs != [] && Step(st, zs[0], file, lineNo + 1) == Success(st1)
    ensures Steps(st, zs, file, lineNo) == Steps(st1, zs[1..], file, lineNo + 1)
  {
  }

  /** The fold over a single line. */
  lemma StepsOne(st: TraState, line: string, file: string, lineNo: nat, r: Result<TraState, ParseError>)
    requires Step(st, line, file, lineNo + 1) == r
    ensures Steps(st, [line], file, lineNo) == r
  {
    StepsFirst(st, [line], file, lineNo);
    assert [line][1..] == [];
  }

  lemma OpenThenRest(st: TraState, ds: string, first: string, rest: seq<string>, file: string, lineNo: nat)
    requires st.mode == Normal && st.b == "" && IdDigits(ds) && NoTilde(first)
    requires first == [] || !IsSpace(first[|first| - 1])
    ensures Steps(st, ["@" + ds + " = ~" + first] + rest, file, lineNo)
            == Steps(TraState(st.out, ReadMale, DigitsValue(ds), first + "\n"), rest, file, lineNo + 1)
  {
    var lines := ["@" + ds + " = ~" + first] + rest;
    assert lines[1..] == rest;
    OpenLiteral(st, ds, first, file, lineNo + 1);
    StepsFirst(st, lines, file, lineNo);
  }

  lemma ContentThenClose(st: TraState, ls: seq<string>, c: string, tail: string, file: string, lineNo: nat)
    requires st.mode == ReadMale && st.curId !in st.out && NoTilde(c)
    requires forall j :: 0 <= j < |ls| ==> NoTilde(ls[j])
    ensures Steps(st, ls + [c + "~" + tail], file, lineNo)
            == Success(TraState(st.out[st.curId := st.b + Lines(ls) + c], Normal, st.curId, ""))
  {
    ContentThenLine(st, ls, c + "~" + tail, file, lineNo);
    CloseLiteral(st.(b := st.b + Lines(ls)), c, tail, file, lineNo + |ls| + 1);
  }

  /** A multi-line literal: the opening line's text, every line in between
      and the closing line's text before its `~`, joined by line breaks. */
  lemma MultiLineEntry(st: TraState, ds: string, first: string, ls: seq<string>, c: string, tail: string, file: string, lineNo: nat)
    requires st.mode == Normal && st.b == "" && IdDigits(ds) && DigitsValue(ds) !in st.out
    requires NoTilde(first) && (first == [] || !IsSpace(first[|first| - 1]))
    requires (forall j :: 0 <= j < |ls| ==> NoTilde(ls[j])) && NoTilde(c)
    ensures Steps(st, ["@" + ds + " = ~" + first] + ls + [c + "~" + tail], file, lineNo)
            == Success(TraState(st.out[DigitsValue(ds) := first + "\n" + Lines(ls) + c], Normal, DigitsValue(ds), ""))
  {
    var open := "@" + ds + " = ~" + first;
    var rest := ls + [c + "~" + tail];
    var st1 := TraState(st.out, ReadMale, DigitsValue(ds), first + "\n");
    assert [open] + ls + [c + "~" + tail] == [open] + rest;
    OpenThenRest(st, ds, first, rest, file, lineNo);
    ContentThenClose(st1, ls, c, tail, file, lineNo + 1);
  }

  /** A literal still open at the end of the file is an error that names
      its id, reported at the last line. */
  lemma UnterminatedLiteral(ds: string, first: string, file: string)
    requires IdDigits(ds) && NoTilde(first) && (first == [] || !IsSpace(first[|first| - 1]))
    ensures Parse(["@" + ds + " = ~" + first], file)
            == Failure(ParseError(file, 1, Unterminated(DigitsValue(ds))))
  {
    var line := "@" + ds + " = ~" + first;
    OpenLiteral(Start, ds, first, file, 1);
    StepsOne(Start, line, file, 0, Success(TraState(map[], ReadMale, DigitsValue(ds), first + "\n")));
  }

  /** A file of one entry line parses to a table of that one text. */
  lemma OneEntryParses(ds: string, text: string, file: string)
    requires IdDigits(ds) && NoTilde(text)
    ensures Parse([EntryLine(ds, text)], file) == Success(Tra(Some(map[DigitsValue(ds) := text])))
  {
    var line := EntryLine(ds, text);
    SingleLineEntry(Start, ds, text, "", file, 1);
    assert line + "" == line;
    StepsOne(Start, line, file, 0, Success(TraState(map[DigitsValue(ds) := text], Normal, DigitsValue(ds), "")));
  }

  /** A table parsed from one entry gives back that entry's text, and the
      placeholder naming any other id. */
  lemma LookupRoundTrip(id: nat, text: string, other: nat, file: string)
    requires NoTilde(text) && other != id
    ensures Parse([EntryLine(NatToString(id), text)], file) == Success(Tra(Some(map[id := text])))
    ensures GetTextByID(Tra(Some(map[id := text])), Some(id)) == text
    ensures GetTextByID(Tra(Some(map[id := text])), Some(other)) == Missing(other)
  {
    var ds := NatToString(id);
    assert IdDigits(ds) && DigitsValue(ds) == id;
    OneEntryParses(ds, text, file);
    var t := map[id := text];
    assert id in t && t[id] == text && other !in t;
  }
}
