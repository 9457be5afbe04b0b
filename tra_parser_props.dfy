/** Whole-file properties of the `.tra` parser: an entry anywhere in a file
    is found by GetTextByID, a literal left open anywhere is the error at
    the last line naming its id, and the table never holds an id that no
    line of the file names. */
module TraParserProps {
  import opened Text
  import opened Wrappers
  import opened TraParser

  // ---------------------------------------------------------------------------
  // The fold over a concatenation

  /** The line loop over any step function: the first error stops it. */
  function Fold(f: (TraState, string, nat) -> Result<TraState, ParseError>, st: TraState, lines: seq<string>, n: nat)
    : Result<TraState, ParseError>
    decreases |lines|
  {
    if lines == [] then Success(st)
    else
      match f(st, lines[0], n + 1)
      case Failure(e) => Failure(e)
      case Success(s1) => Fold(f, s1, lines[1..], n + 1)
  }

  /** The parser's step on the lines of one file. */
  function StepIn(file: string): (TraState, string, nat) -> Result<TraState, ParseError> {
    (st: TraState, line: string, k: nat) => Step(st, line, file, k)
  }

  /** Steps is that loop with the parser's step. */
  lemma {:induction false} StepsIsFold(st: TraState, lines: seq<string>, file: string, n: nat)
    ensures Steps(st, lines, file, n) == Fold(StepIn(file), st, lines, n)
    decreases |lines|
  {
    if lines != [] {
      var r := Step(st, lines[0], file, n + 1);
      assert StepIn(file)(st, lines[0], n + 1) == r;
      if r.Success? {
        StepsIsFold(r.value, lines[1..], file, n + 1);
      }
    }
  }

  /** For any step function, the loop over `a + b` is the loop over `a`,
      then over `b` from where it left off. */
  lemma {:induction false} FoldAppend(f: (TraState, string, nat) -> Result<TraState, ParseError>, st: TraState,
                                      a: seq<string>, b: seq<string>, n: nat)
    ensures Fold(f, st, a + b, n)
            == match Fold(f, st, a, n)
               case Failure(e) => Failure(e)
               case Success(s) => Fold(f, s, b, n + |a|)
    decreases |a|
  {
    if a == [] {
      assert a + b == b;
    } else {
      assert (a + b)[0] == a[0] && (a + b)[1..] == a[1..] + b;
      match f(st, a[0], n + 1)
      case Failure(e) =>
      case Success(s1) => FoldAppend(f, s1, a[1..], b, n + 1);
    }
  }

  /** For any step function: an error in `a` is an error of `a + b`. */
  lemma FoldAppendFail(f: (TraState, string, nat) -> Result<TraState, ParseError>, st: TraState,
                       a: seq<string>, b: seq<string>, n: nat)
    requires Fold(f, st, a, n).Failure?
    ensures Fold(f, st, a + b, n) == Fold(f, st, a, n)
  {
    FoldAppend(f, st, a, b, n);
  }

  /** For any step function: once `a` is read without error, `b` is read
      from where it left off; `m` is the number of the last line of `a`. */
  lemma FoldAppendOk(f: (TraState, string, nat) -> Result<TraState, ParseError>, st: TraState,
                     a: seq<string>, b: seq<string>, n: nat, s: TraState, m: nat)
    requires Fold(f, st, a, n) == Success(s) && m == n + |a|
    ensures Fold(f, st, a + b, n) == Fold(f, s, b, m)
  {
    FoldAppend(f, st, a, b, n);
  }

  /** The parser's fold over `a + b`, once `a` is read without error. */
  lemma StepsAppendOk(st: TraState, a: seq<string>, b: seq<string>, file: string, n: nat, s: TraState, m: nat)
    requires Steps(st, a, file, n) == Success(s) && m == n + |a|
    ensures Steps(st, a + b, file, n) == Steps(s, b, file, m)
  {
    StepsIsFold(st, a + b, file, n);
    StepsIsFold(st, a, file, n);
    FoldAppendOk(StepIn(file), st, a, b, n, s, m);
    StepsIsFold(s, b, file, m);
  }

  /** The parser's fold over `a + b`, when reading `a` fails. */
  lemma StepsAppendFail(st: TraState, a: seq<string>, b: seq<string>, file: string, n: nat)
    requires Steps(st, a, file, n).Failure?
    ensures Steps(st, a + b, file, n) == Steps(st, a, file, n)
  {
    StepsIsFold(st, a + b, file, n);
    StepsIsFold(st, a, file, n);
    FoldAppendFail(StepIn(file), st, a, b, n);
  }

  /** The parser's fold over `a + b` is the fold over `a`, then over `b`
      from where it left off, line numbers going on; an error in `a` is the
      result. */
  lemma StepsAppend(st: TraState, a: seq<string>, b: seq<string>, file: string, n: nat)
    ensures Steps(st, a + b, file, n)
            == match Steps(st, a, file, n)
               case Failure(e) => Failure(e)
               case Success(s) => Steps(s, b, file, n + |a|)
  {
    match Steps(st, a, file, n)
    case Failure(e) => StepsAppendFail(st, a, b, file, n);
    case Success(s) => StepsAppendOk(st, a, b, file, n, s, n + |a|);
  }

  /** After a prefix read without error and outside a literal, nothing is
      left gathered. */
  lemma PrefixClean(pre: seq<string>, file: string, s: TraState)
    requires Steps(Start, pre, file, 0) == Success(s) && s.mode == Normal
    ensures s.b == ""
  {
    StepsKeep(Start, pre, file, 0);
  }

  /** The fold over a prefix read outside a literal, then the rest. */
  lemma PrefixThen(pre: seq<string>, rest: seq<string>, file: string) returns (s: TraState)
    requires Steps(Start, pre, file, 0).Success? && Steps(Start, pre, file, 0).value.mode == Normal
    ensures s.mode == Normal && s.b == ""
    ensures Steps(Start, pre + rest, file, 0) == Steps(s, rest, file, |pre|)
  {
    s := Steps(Start, pre, file, 0).value;
    PrefixClean(pre, file, s);
    StepsAppendOk(Start, pre, rest, file, 0, s, |pre|);
  }

  /** What Parse makes of the state the fold ends in. */
  lemma ParseEnds(lines: seq<string>, file: string, s: TraState)
    requires Steps(Start, lines, file, 0) == Success(s)
    ensures s.mode == ReadMale
            ==> Parse(lines, file) == Failure(ParseError(file, |lines|, Unterminated(s.curId)))
    ensures s.mode == Normal ==> Parse(lines, file) == Success(Tra(Some(s.out)))
  {
  }

  /** A file whose fold ends inside a literal fails at its last line,
      number `k`, naming the literal's id. */
  lemma ParseEndsOpen(lines: seq<string>, file: string, s: TraState, k: nat)
    requires Steps(Start, lines, file, 0) == Success(s) && s.mode == ReadMale && k == |lines|
    ensures Parse(lines, file) == Failure(ParseError(file, k, Unterminated(s.curId)))
  {
    ParseEnds(lines, file, s);
  }

  /** A file that parses was read without error, and its table is the map
      the fold ends with. */
  lemma ParseOk(lines: seq<string>, file: string) returns (s: TraState)
    requires Parse(lines, file).Success?
    ensures Steps(Start, lines, file, 0) == Success(s) && Parse(lines, file).value.texts == Some(s.out)
  {
    s := Steps(Start, lines, file, 0).value;
  }

  /** A failing first line fails the rest of the file. */
  lemma FirstFails(st: TraState, line: string, rest: seq<string>, file: string, n: nat, e: ParseError)
    requires Step(st, line, file, n + 1) == Failure(e)
    ensures Steps(st, [line] + rest, file, n) == Failure(e)
  {
    StepsFirst(st, [line] + rest, file, n);
  }

  // ---------------------------------------------------------------------------
  // An entry anywhere in a file

  /** An entry line whose id is already stored fails the rest of the file. */
  lemma EntryTakenFails(s: TraState, ds: string, text: string, tail: string, post: seq<string>, file: string, n: nat)
    requires s.mode == Normal && IdDigits(ds) && NoTilde(text)
    ensures DigitsValue(ds) in s.out ==> Steps(s, [EntryLine(ds, text) + tail] + post, file, n).Failure?
  {
    if DigitsValue(ds) in s.out {
      DuplicateEntry(s, ds, text, tail, file, n + 1);
      FirstFails(s, EntryLine(ds, text) + tail, post, file, n,
                 ParseError(file, n + 1, "duplicate string id @" + NatToString(DigitsValue(ds)) + " in file"));
    }
  }

  /** An entry line read outside a literal, with its id still free, stores
      its text, and the lines after it keep it. */
  lemma EntryThenRest(s: TraState, ds: string, text: string, tail: string, post: seq<string>, file: string, n: nat)
    requires s.mode == Normal && s.b == "" && IdDigits(ds) && NoTilde(text) && DigitsValue(ds) !in s.out
    requires Steps(s, [EntryLine(ds, text) + tail] + post, file, n).Success?
    ensures var r := Steps(s, [EntryLine(ds, text) + tail] + post, file, n).value;
      DigitsValue(ds) in r.out && r.out[DigitsValue(ds)] == text
  {
    var rest := [EntryLine(ds, text) + tail] + post;
    var s2 := TraState(s.out[DigitsValue(ds) := text], Normal, DigitsValue(ds), "");
    SingleLineEntry(s, ds, text, tail, file, n + 1);
    StepsCons(s, rest, file, n, s2);
    assert rest[1..] == post;
    StepsKeep(s2, post, file, n + 1);
  }

  /** Whatever comes before it (read outside a literal) and after it, an
      entry line `@<ds> = ~text~` in a file that parses leaves `text` under
      its id: GetTextByID gives it back. */
  lemma EntryInFile(pre: seq<string>, ds: string, text: string, tail: string, post: seq<string>, file: string)
    requires IdDigits(ds) && NoTilde(text)
    requires Steps(Start, pre, file, 0).Success? && Steps(Start, pre, file, 0).value.mode == Normal
    requires Parse(pre + [EntryLine(ds, text) + tail] + post, file).Success?
    ensures GetTextByID(Parse(pre + [EntryLine(ds, text) + tail] + post, file).value, Some(DigitsValue(ds))) == text
  {
    var lines := pre + ([EntryLine(ds, text) + tail] + post);
    assert pre + [EntryLine(ds, text) + tail] + post == lines;
    var s := PrefixThen(pre, [EntryLine(ds, text) + tail] + post, file);
    var sEnd := ParseOk(lines, file);
    EntryTakenFails(s, ds, text, tail, post, file, |pre|);
    EntryThenRest(s, ds, text, tail, post, file, |pre|);
  }

  /** The closing line of a literal whose id is already stored is the
      duplicate error. */
  lemma CloseTakenFails(st: TraState, c: string, tail: string, file: string, lineNo: nat)
    requires st.mode == ReadMale && st.curId in st.out && NoTilde(c)
    ensures Step(st, c + "~" + tail, file, lineNo).Failure?
  {
    var line := c + "~" + tail;
    assert line[|c|] == '~' && line[..|c|] == c;
    StepInLiteral(st, line, file, lineNo);
  }

  /** A multi-line literal whose id is already stored fails the rest of the
      file. */
  lemma MultiLineTakenFails(s: TraState, ds: string, first: string, ls: seq<string>, c: string, tail: string,
                            post: seq<string>, file: string, n: nat)
    requires s.mode == Normal && s.b == "" && IdDigits(ds)
    requires NoTilde(first) && (first == [] || !IsSpace(first[|first| - 1]))
    requires (forall j :: 0 <= j < |ls| ==> NoTilde(ls[j])) && NoTilde(c)
    ensures DigitsValue(ds) in s.out ==> Steps(s, (["@" + ds + " = ~" + first] + ls + [c + "~" + tail]) + post, file, n).Failure?
  {
    if DigitsValue(ds) in s.out {
      var open := "@" + ds + " = ~" + first;
      var close := c + "~" + tail;
      var entry := [open] + ls + [close];
      var st1 := TraState(s.out, ReadMale, DigitsValue(ds), first + "\n");
      assert entry == [open] + (ls + [close]);
      OpenThenRest(s, ds, first, ls + [close], file, n);
      ContentThenLine(st1, ls, close, file, n + 1);
      CloseTakenFails(st1.(b := st1.b + Lines(ls)), c, tail, file, n + 1 + |ls| + 1);
      StepsAppendFail(s, entry, post, file, n);
    }
  }

  /** The same for a literal over several lines: the opening text, the lines
      between and the closing text, joined by line breaks. */
  lemma MultiLineEntryInFile(pre: seq<string>, ds: string, first: string, ls: seq<string>, c: string, tail: string,
                             post: seq<string>, file: string)
    requires IdDigits(ds) && NoTilde(first) && (first == [] || !IsSpace(first[|first| - 1]))
    requires (forall j :: 0 <= j < |ls| ==> NoTilde(ls[j])) && NoTilde(c)
    requires Steps(Start, pre, file, 0).Success? && Steps(Start, pre, file, 0).value.mode == Normal
    requires Parse(pre + (["@" + ds + " = ~" + first] + ls + [c + "~" + tail]) + post, file).Success?
    ensures GetTextByID(Parse(pre + (["@" + ds + " = ~" + first] + ls + [c + "~" + tail]) + post, file).value,
                        Some(DigitsValue(ds)))
            == first + "\n" + Lines(ls) + c
  {
    var entry := ["@" + ds + " = ~" + first] + ls + [c + "~" + tail];
    var lines := pre + (entry + post);
    assert pre + entry + post == lines;
    var s := PrefixThen(pre, entry + post, file);
    var sEnd := ParseOk(lines, file);
    MultiLineTakenFails(s, ds, first, ls, c, tail, post, file, |pre|);
    MultiLineThenRest(s, ds, first, ls, c, tail, post, file, |pre|);
  }

  /** A multi-line literal read outside a literal, with its id still free,
      is stored, and the fold goes on after its closing line, number `m`. */
  lemma MultiLineThenFold(s: TraState, ds: string, first: string, ls: seq<string>, c: string, tail: string,
                          post: seq<string>, file: string, n: nat, m: nat)
    requires s.mode == Normal && s.b == "" && IdDigits(ds) && DigitsValue(ds) !in s.out
    requires NoTilde(first) && (first == [] || !IsSpace(first[|first| - 1]))
    requires (forall j :: 0 <= j < |ls| ==> NoTilde(ls[j])) && NoTilde(c) && m == n + |ls| + 2
    ensures Steps(s, (["@" + ds + " = ~" + first] + ls + [c + "~" + tail]) + post, file, n)
            == Steps(TraState(s.out[DigitsValue(ds) := first + "\n" + Lines(ls) + c], Normal, DigitsValue(ds), ""),
                     post, file, m)
  {
    var entry := ["@" + ds + " = ~" + first] + ls + [c + "~" + tail];
    var s2 := TraState(s.out[DigitsValue(ds) := first + "\n" + Lines(ls) + c], Normal, DigitsValue(ds), "");
    MultiLineEntry(s, ds, first, ls, c, tail, file, n);
    StepsAppendOk(s, entry, post, file, n, s2, m);
  }

  /** A multi-line literal read outside a literal, with its id still free,
      stores its text, and the lines after it keep it. */
  lemma MultiLineThenRest(s: TraState, ds: string, first: string, ls: seq<string>, c: string, tail: string,
                          post: seq<string>, file: string, n: nat)
    requires s.mode == Normal && s.b == "" && IdDigits(ds) && DigitsValue(ds) !in s.out
    requires NoTilde(first) && (first == [] || !IsSpace(first[|first| - 1]))
    requires (forall j :: 0 <= j < |ls| ==> NoTilde(ls[j])) && NoTilde(c)
    requires Steps(s, (["@" + ds + " = ~" + first] + ls + [c + "~" + tail]) + post, file, n).Success?
    ensures var r := Steps(s, (["@" + ds + " = ~" + first] + ls + [c + "~" + tail]) + post, file, n).value;
      DigitsValue(ds) in r.out && r.out[DigitsValue(ds)] == first + "\n" + Lines(ls) + c
  {
    var id := DigitsValue(ds);
    var s2 := TraState(s.out[id := first + "\n" + Lines(ls) + c], Normal, id, "");
    var m := n + |ls| + 2;
    MultiLineThenFold(s, ds, first, ls, c, tail, post, file, n, m);
    StoredStays(s2, post, file, m, id, first + "\n" + Lines(ls) + c);
  }

  /** A text stored before some lines are read without error is still
      stored after them. */
  lemma StoredStays(st: TraState, lines: seq<string>, file: string, n: nat, id: nat, text: string)
    requires id in st.out && st.out[id] == text && Steps(st, lines, file, n).Success?
    ensures id in Steps(st, lines, file, n).value.out && Steps(st, lines, file, n).value.out[id] == text
  {
    StepsKeep(st, lines, file, n);
  }

  /** A literal opened after a prefix read outside a literal, with no
      line closing it, leaves the fold inside it. */
  lemma OpenToEnd(pre: seq<string>, ds: string, first: string, ls: seq<string>, file: string)
    returns (sEnd: TraState)
    requires IdDigits(ds) && NoTilde(first) && (first == [] || !IsSpace(first[|first| - 1]))
    requires forall j :: 0 <= j < |ls| ==> NoTilde(ls[j])
    requires Steps(Start, pre, file, 0).Success? && Steps(Start, pre, file, 0).value.mode == Normal
    ensures Steps(Start, pre + ["@" + ds + " = ~" + first] + ls, file, 0) == Success(sEnd)
    ensures sEnd.mode == ReadMale && sEnd.curId == DigitsValue(ds)
  {
    assert pre + ["@" + ds + " = ~" + first] + ls == pre + (["@" + ds + " = ~" + first] + ls);
    var s := PrefixThen(pre, ["@" + ds + " = ~" + first] + ls, file);
    var st1 := TraState(s.out, ReadMale, DigitsValue(ds), first + "\n");
    OpenThenRest(s, ds, first, ls, file, |pre|);
    ContentLines(st1, ls, file, |pre| + 1);
    sEnd := TraState(s.out, ReadMale, DigitsValue(ds), first + "\n" + Lines(ls));
  }

  /** A literal opened anywhere and never closed: the parse fails at the
      last line, naming that literal's id. */
  lemma UnterminatedInFile(pre: seq<string>, ds: string, first: string, ls: seq<string>, file: string)
    requires IdDigits(ds) && NoTilde(first) && (first == [] || !IsSpace(first[|first| - 1]))
    requires forall j :: 0 <= j < |ls| ==> NoTilde(ls[j])
    requires Steps(Start, pre, file, 0).Success? && Steps(Start, pre, file, 0).value.mode == Normal
    ensures Parse(pre + ["@" + ds + " = ~" + first] + ls, file)
            == Failure(ParseError(file, |pre| + 1 + |ls|, Unterminated(DigitsValue(ds))))
  {
    var sEnd := OpenToEnd(pre, ds, first, ls, file);
    ParseEndsOpen(pre + ["@" + ds + " = ~" + first] + ls, file, sEnd, |pre| + 1 + |ls|);
  }

  // ---------------------------------------------------------------------------
  // Nothing but the file's own ids

  /** The id of a line that reads as an entry outside a literal, if any. */
  function EntryId(line: string): (r: Option<nat>)
    ensures r.Some? ==> HasPrefix(TrimSpace(line), "@") && ParseEntry(TrimSpace(line)).Success?
                        && ParseEntry(TrimSpace(line)).value.id == r.value
  {
    var t := TrimSpace(line);
    if HasPrefix(t, "@") && ParseEntry(t).Success? then Some(ParseEntry(t).value.id) else None
  }

  /** The ids the lines of a file name in entry form. */
  function LineIds(lines: seq<string>): set<nat> {
    set k | 0 <= k < |lines| && EntryId(lines[k]).Some? :: EntryId(lines[k]).value
  }

  /** The ids of a file include those of its first line and of the rest. */
  lemma LineIdsCons(lines: seq<string>)
    requires lines != []
    ensures (if EntryId(lines[0]).Some? then {EntryId(lines[0]).value} else {}) + LineIds(lines[1..]) <= LineIds(lines)
  {
    forall id | id in LineIds(lines[1..])
      ensures id in LineIds(lines)
    {
      var k :| 0 <= k < |lines| - 1 && EntryId(lines[1..][k]).Some? && EntryId(lines[1..][k]).value == id;
      assert lines[k + 1] == lines[1..][k];
    }
  }

  /** The ids a state answers for: the stored ones and the open literal's. */
  function Held(st: TraState): set<nat> {
    st.out.Keys + (if st.mode == ReadMale then {st.curId} else {})
  }

  /** One line adds no id but the one it names. */
  lemma StepHeld(st: TraState, line: string, file: string, lineNo: nat)
    requires Step(st, line, file, lineNo).Success?
    ensures Held(Step(st, line, file, lineNo).value)
            <= Held(st) + (if EntryId(line).Some? then {EntryId(line).value} else {})
  {
    var st' := Step(st, line, file, lineNo).value;
    if st.mode == Normal {
      var t := TrimSpace(line);
      if t == "" || HasPrefix(t, "//") || !HasPrefix(t, "@") {
        assert st' == st;
      } else {
        var e := ParseEntry(t).value;
        StepEntry(st, line, file, lineNo, e);
        assert st'.curId == e.id && EntryId(line) == Some(e.id);
      }
    } else {
      StepInLiteral(st, line, file, lineNo);
      assert st'.curId == st.curId;
    }
  }

  /** Over any lines, the ids held come from the start or from the lines. */
  lemma {:induction false} StepsHeld(st: TraState, lines: seq<string>, file: string, n: nat)
    requires Steps(st, lines, file, n).Success?
    ensures Held(Steps(st, lines, file, n).value) <= Held(st) + LineIds(lines)
    decreases |lines|
  {
    if lines != [] {
      var st1 := Step(st, lines[0], file, n + 1).value;
      StepHeld(st, lines[0], file, n + 1);
      StepsCons(st, lines, file, n, st1);
      StepsHeld(st1, lines[1..], file, n + 1);
      LineIdsCons(lines);
    }
  }

  /** The table of a file that parses holds only ids that some line of the
      file names as an entry. */
  lemma ParseHoldsOnlyNamedIds(lines: seq<string>, file: string)
    requires Parse(lines, file).Success?
    ensures Parse(lines, file).value.texts.value.Keys <= LineIds(lines)
  {
    StepsHeld(Start, lines, file, 0);
  }

  /** A file that ends inside a literal fails at its last line, and the id
      in the message is one the file names. */
  lemma OpenAtEnd(lines: seq<string>, file: string)
    requires Steps(Start, lines, file, 0).Success? && Steps(Start, lines, file, 0).value.mode == ReadMale
    ensures var id := Steps(Start, lines, file, 0).value.curId;
      id in LineIds(lines)
      && Parse(lines, file) == Failure(ParseError(file, |lines|, Unterminated(id)))
  {
    StepsHeld(Start, lines, file, 0);
  }
}
