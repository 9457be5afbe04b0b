/** internal/csv/export.go: the sheet written for each parsed dialogue
    file, row by row, and the name of the file it goes to.  Creating the
    files and the CSV encoding are not modelled: a sheet is the sequence of
    rows the writer is handed. */
module CsvExport {
  import opened Text
  import opened Wrappers
  import opened DParser

  // ---------------------------------------------------------------------------
  // Column formatters

  /** formatTraID: no id gives "", an id gives `@` and its decimal digits. */
  function FormatTraID(id: Option<nat>): (r: string)
    ensures id.None? <==> r == ""
    ensures id.Some? ==> r[0] == '@' && AllDigits(r[1..]) && DigitsValue(r[1..]) == id.value
    ensures id.Some? ==> r == "@" + NatToString(id.value)
  {
    match id
    case None => ""
    case Some(n) =>
      var ds := NatToString(n);
      assert ("@" + ds)[1..] == ds;
      "@" + ds
  }

  /** Two occurrences with different ids never share an id column. */
  lemma FormatTraIDInjective(a: Option<nat>, b: Option<nat>)
    requires FormatTraID(a) == FormatTraID(b)
    ensures a == b
  {
    if a.Some? && b.Some? {
      assert DigitsValue(FormatTraID(a)[1..]) == DigitsValue(FormatTraID(b)[1..]);
    }
  }

  /** formatComment: the notes joined with ", ", then ` | ` and the
      condition; either part alone when the other is empty. */
  function FormatComment(o: Occurrence): (r: string)
  {
    var notes := Join(o.notes, ", ");
    if o.condition == "" then notes
    else if notes == "" then o.condition
    else notes + " | " + o.condition
  }

  /** The comment column keeps both parts whole: it starts with the joined
      notes, ends with the condition, and the ` | ` between them is there
      exactly when both are non-empty. */
  lemma CommentKeepsBoth(o: Occurrence)
    ensures var notes := Join(o.notes, ", "); var r := FormatComment(o);
      && |r| == |notes| + |o.condition| + (if notes != "" && o.condition != "" then 3 else 0)
      && r[..|notes|] == notes
      && r[|r| - |o.condition|..] == o.condition
      && (notes != "" && o.condition != "" ==> r[|notes|..|notes| + 3] == " | ")
  {
    var notes := Join(o.notes, ", ");
    var r := FormatComment(o);
    if o.condition == "" {
      assert r[|r| - |o.condition|..] == [];
    } else if notes == "" {
      assert r[..|notes|] == [];
    } else {
      assert r == notes + " | " + o.condition;
      assert r[..|notes|] == notes;
      assert r[|r| - |o.condition|..] == o.condition;
    }
  }

  /** formatGoto: the target type in upper case decides; EXTERN names its
      file and state when both are known. */
  function FormatGoto(o: Occurrence): (r: string)
  {
    if UpperEquals(o.toType, "EXIT") then "EXIT"
    else if UpperEquals(o.toType, "EXTERN") then
      if o.toDlg.Some? && o.toState.Some? then "EXTERN:" + o.toDlg.value + ":" + o.toState.value
      else "EXTERN"
    else ""
  }

  /** The goto column is empty exactly for targets other than EXIT and
      EXTERN (GOTO among them), and it starts with EXTERN exactly for an
      EXTERN target, in whatever case the target type was written. */
  lemma GotoKinds(o: Occurrence)
    ensures FormatGoto(o) == "" <==> !UpperEquals(o.toType, "EXIT") && !UpperEquals(o.toType, "EXTERN")
    ensures FormatGoto(o) == "EXIT" <==> UpperEquals(o.toType, "EXIT")
    ensures HasPrefix(FormatGoto(o), "EXTERN") <==> UpperEquals(o.toType, "EXTERN")
    ensures UpperEquals(o.toType, "EXTERN") && (o.toDlg.None? || o.toState.None?) ==> FormatGoto(o) == "EXTERN"
  {
    var r := FormatGoto(o);
    if UpperEquals(o.toType, "EXTERN") {
      assert r[..6] == "EXTERN";
    } else if r == "EXIT" {
      assert !HasPrefix(r, "EXTERN");
    }
  }

  /** An EXTERN target whose file name has no `:` can be read back from
      the goto column: the file up to the first `:` after `EXTERN:`, the
      state after it. */
  lemma GotoExternRoundTrip(o: Occurrence)
    requires UpperEquals(o.toType, "EXTERN") && o.toDlg.Some? && o.toState.Some?
    requires forall k :: 0 <= k < |o.toDlg.value| ==> o.toDlg.value[k] != ':'
    ensures var r := FormatGoto(o); var rest := r[7..]; var colon := IndexByte(rest, ':');
      && r[..7] == "EXTERN:" && colon == |o.toDlg.value|
      && rest[..colon] == o.toDlg.value && rest[colon + 1..] == o.toState.value
  {
    var d := o.toDlg.value;
    var r := FormatGoto(o);
    assert !UpperEquals(o.toType, "EXIT");
    assert r == "EXTERN:" + d + ":" + o.toState.value;
    var rest := r[7..];
    assert rest == d + ":" + o.toState.value;
    assert rest[|d|] == ':';
    assert rest[..|d|] == d;
    assert rest[|d| + 1..] == o.toState.value;
  }

  // ---------------------------------------------------------------------------
  // Rows

  /** The header row, written first in every sheet. */
  const Header: seq<string> :=
    ["npc_name", "dialogue_id", "state", "npc_strref", "npc_text_en",
     "pc_strref", "pc_text_en", "goto", "comment"]

  /** makeEmptyRow: nine empty columns. */
  function EmptyRow(): (r: seq<string>)
    ensures |r| == 9 && forall k :: 0 <= k < 9 ==> r[k] == ""
  {
    ["", "", "", "", "", "", "", "", ""]
  }

  /** The row for one occurrence, or None for a kind the sheet skips. */
  function MakeRow(o: Occurrence): (r: Option<seq<string>>)
  {
    match o.kind
    case NPC => Some([o.speaker, o.dialog, o.state, FormatTraID(o.traId), "text", "", "", "", FormatComment(o)])
    case PC => Some([o.speaker, o.dialog, o.state, "", "", FormatTraID(o.traId), "text", FormatGoto(o), FormatComment(o)])
    case OtherKind(_) => None
  }

  /** Every row has the nine columns of the header; speaker, dialogue, state
      and comment are always there; an NPC line fills only its NPC columns
      and a PC line only its PC columns. */
  lemma RowLayout(o: Occurrence)
    ensures MakeRow(o).None? <==> o.kind.OtherKind?
    ensures MakeRow(o).Some? ==>
      var row := MakeRow(o).value;
      && |row| == |Header|
      && row[0] == o.speaker && row[1] == o.dialog && row[2] == o.state && row[8] == FormatComment(o)
      && (o.kind == NPC ==> row[3] == FormatTraID(o.traId) && row[4] == "text"
                            && row[5] == "" && row[6] == "" && row[7] == "")
      && (o.kind == PC ==> row[3] == "" && row[4] == ""
                           && row[5] == FormatTraID(o.traId) && row[6] == "text" && row[7] == FormatGoto(o))
  {
  }

  /** The loop body of Export for one occurrence: a fresh nine-slot row
      filled in place. */
  method FillRow(o: Occurrence) returns (r: Option<seq<string>>)
    ensures r == MakeRow(o)
  {
    var row := new string[9](_ => "");
    row[0] := o.speaker;
    row[1] := o.dialog;
    row[2] := o.state;
    row[8] := FormatComment(o);
    match o.kind {
      case NPC =>
        row[3] := FormatTraID(o.traId);
        row[4] := "text";
        assert row[..] == [o.speaker, o.dialog, o.state, FormatTraID(o.traId), "text", "", "", "", FormatComment(o)];
      case PC =>
        row[5] := FormatTraID(o.traId);
        row[6] := "text";
        row[7] := FormatGoto(o);
        assert row[..] == [o.speaker, o.dialog, o.state, "", "", FormatTraID(o.traId), "text", FormatGoto(o), FormatComment(o)];
      case OtherKind(_) =>
        return None;
    }
    r := Some(row[..]);
  }

  /** The data rows of a sheet, in the order of the occurrences. */
  function Rows(occ: seq<Occurrence>): (r: seq<seq<string>>)
    ensures |r| <= |occ|
  {
    if occ == [] then []
    else
      var prev := Rows(occ[..|occ| - 1]);
      match MakeRow(occ[|occ| - 1])
      case None => prev
      case Some(row) => prev + [row]
  }

  /** The number of NPC and PC occurrences. */
  function Listed(occ: seq<Occurrence>): nat {
    if occ == [] then 0
    else Listed(occ[..|occ| - 1]) + (if occ[|occ| - 1].kind.OtherKind? then 0 else 1)
  }

  /** The rows of two runs of occurrences are the rows of the first, then
      the rows of the second: no row is dropped, added or moved. */
  lemma {:induction false} RowsAppend(a: seq<Occurrence>, b: seq<Occurrence>)
    ensures Rows(a + b) == Rows(a) + Rows(b)
    decreases |b|
  {
    if b == [] {
      assert a + b == a;
    } else {
      var b0 := b[..|b| - 1];
      assert (a + b)[..|a + b| - 1] == a + b0;
      assert (a + b)[|a + b| - 1] == b[|b| - 1];
      RowsAppend(a, b0);
    }
  }

  /** One row per NPC or PC occurrence, and every row has nine columns. */
  lemma {:induction false} RowsCount(occ: seq<Occurrence>)
    ensures |Rows(occ)| == Listed(occ)
    ensures forall k :: 0 <= k < |Rows(occ)| ==> |Rows(occ)[k]| == |Header|
  {
    if occ != [] {
      RowsCount(occ[..|occ| - 1]);
      RowLayout(occ[|occ| - 1]);
    }
  }

  // ---------------------------------------------------------------------------
  // File names

  /** The characters a file name keeps: `[A-Za-z0-9._-]`. */
  predicate Allowed(c: char) {
    ('A' <= c <= 'Z') || ('a' <= c <= 'z') || ('0' <= c <= '9') || c == '.' || c == '_' || c == '-'
  }

  predicate AllAllowed(s: string) {
    forall k :: 0 <= k < |s| ==> Allowed(s[k])
  }

  /** The end of the run of other characters that starts at `i`. */
  function RunEnd(s: string, i: nat): (j: nat)
    requires i <= |s|
    ensures i <= j <= |s| && (j == |s| || Allowed(s[j]))
    ensures forall k :: i <= k < j ==> !Allowed(s[k])
    decreases |s| - i
  {
    if i == |s| || Allowed(s[i]) then i else RunEnd(s, i + 1)
  }

  /** A run that ends where the characters say it ends. */
  lemma {:induction false} RunEndIs(s: string, i: nat, j: nat)
    requires i <= j <= |s| && (forall k :: i <= k < j ==> !Allowed(s[k])) && (j == |s| || Allowed(s[j]))
    ensures RunEnd(s, i) == j
    decreases j - i
  {
    if i < j {
      RunEndIs(s, i + 1, j);
    }
  }

  /** sanitizeFilename: each maximal run of characters outside
      `[A-Za-z0-9._-]` becomes a single `_`. */
  function SanitizeFilename(s: string): (r: string)
    ensures AllAllowed(r)
    ensures |r| <= |s|
    decreases |s|
  {
    if s == [] then ""
    else if Allowed(s[0]) then [s[0]] + SanitizeFilename(s[1..])
    else "_" + SanitizeFilename(s[RunEnd(s, 0)..])
  }

  /** A name made only of allowed characters is kept as it is. */
  lemma {:induction false} SanitizeKeepsAllowed(s: string)
    requires AllAllowed(s)
    ensures SanitizeFilename(s) == s
    decreases |s|
  {
    if s != [] {
      SanitizeKeepsAllowed(s[1..]);
    }
  }

  /** Sanitizing twice is sanitizing once. */
  lemma SanitizeIdempotent(s: string)
    ensures SanitizeFilename(SanitizeFilename(s)) == SanitizeFilename(s)
  {
    SanitizeKeepsAllowed(SanitizeFilename(s));
  }

  /** A whole run of other characters, however long, leaves one `_`. */
  lemma RunCollapses(x: string, y: string)
    requires x != [] && (forall k :: 0 <= k < |x| ==> !Allowed(x[k])) && (y == [] || Allowed(y[0]))
    ensures SanitizeFilename(x + y) == "_" + SanitizeFilename(y)
  {
    var s := x + y;
    assert s[0] == x[0];
    forall k | 0 <= k < |x| ensures !Allowed(s[k]) {
      assert s[k] == x[k];
    }
    assert |x| < |s| ==> s[|x|] == y[0];
    RunEndIs(s, 0, |x|);
    assert s[|x|..] == y;
  }

  /** The regular expression as its engine reads it: one character at a
      time, writing `_` at the first character of each run. */
  function ScanReplace(s: string, i: nat, inRun: bool): (r: string)
    requires i <= |s|
    decreases |s| - i
  {
    if i == |s| then ""
    else if Allowed(s[i]) then [s[i]] + ScanReplace(s, i + 1, false)
    else if inRun then ScanReplace(s, i + 1, true)
    else "_" + ScanReplace(s, i + 1, true)
  }

  /** Inside a run the scan writes nothing until the run ends. */
  lemma {:induction false} ScanSkipsRun(s: string, i: nat)
    requires i <= |s|
    ensures ScanReplace(s, i, true) == ScanReplace(s, RunEnd(s, i), false)
    decreases |s| - i
  {
    if i < |s| && !Allowed(s[i]) {
      ScanSkipsRun(s, i + 1);
    }
  }

  /** The run-by-run definition and the character scan agree on every name. */
  lemma {:induction false} SanitizeIsScan(s: string, i: nat)
    requires i <= |s|
    ensures SanitizeFilename(s[i..]) == ScanReplace(s, i, false)
    decreases |s| - i
  {
    if i < |s| {
      var t := s[i..];
      assert t[0] == s[i];
      if Allowed(s[i]) {
        assert t[1..] == s[i + 1..];
        SanitizeIsScan(s, i + 1);
      } else {
        var j := RunEnd(s, i);
        assert RunEnd(t, 0) == j - i;
        assert t[j - i..] == s[j..];
        ScanSkipsRun(s, i + 1);
        assert RunEnd(s, i + 1) == j;
        SanitizeIsScan(s, j);
      }
    }
  }

  /** Different dialogue keys can name the same file. */
  lemma KeysCanShareFile()
    ensures SanitizeFilename("a b") == SanitizeFilename("a_b") == "a_b"
  {
    SanitizeKeepsAllowed("a_b");
    RunCollapses(" ", "b");
    assert "a b"[1..] == " " + "b";
  }

  // ---------------------------------------------------------------------------
  // Order of the sheets

  /** Go's `<` on strings: byte-wise lexicographic order, which on UTF-8
      is the order of the characters' code points. */
  predicate Less(a: string, b: string)
    decreases |a|
  {
    if a == [] then b != []
    else if b == [] then false
    else if a[0] != b[0] then a[0] < b[0]
    else Less(a[1..], b[1..])
  }

  lemma {:induction false} LessIrreflexive(a: string)
    ensures !Less(a, a)
    decreases |a|
  {
    if a != [] { LessIrreflexive(a[1..]); }
  }

  lemma {:induction false} LessTransitive(a: string, b: string, c: string)
    requires Less(a, b) && Less(b, c)
    ensures Less(a, c)
    decreases |a|
  {
    if a != [] && a[0] == b[0] && b[0] == c[0] {
      LessTransitive(a[1..], b[1..], c[1..]);
    }
  }

  /** Of two different strings, one comes first. */
  lemma {:induction false} LessTotal(a: string, b: string)
    ensures a == b || Less(a, b) || Less(b, a)
    ensures !(Less(a, b) && Less(b, a))
    decreases |a|
  {
    if a != [] && b != [] && a[0] == b[0] {
      LessTotal(a[1..], b[1..]);
      if a[1..] == b[1..] {
        assert a == [a[0]] + a[1..] && b == [b[0]] + b[1..];
      }
    }
  }

  /** No string comes before an earlier one. */
  predicate Sorted(s: seq<string>) {
    forall i, j :: 0 <= i < j < |s| ==> !Less(s[j], s[i])
  }

  /** Insertion of `x` before the first element not less than it. */
  function Insert(x: string, s: seq<string>): (r: seq<string>)
    requires Sorted(s)
    ensures Sorted(r) && multiset(r) == multiset(s) + multiset{x}
  {
    if s == [] then [x]
    else if !Less(s[0], x) then
      var r := [x] + s;
      forall i, j | 0 <= i < j < |r| ensures !Less(r[j], r[i]) {
        if i == 0 && j > 1 {
          if Less(s[j - 1], x) {
            LessTotal(s[0], x);
            LessTotal(s[0], s[j - 1]);
            if s[0] != s[j - 1] { LessTransitive(s[j - 1], x, s[0]); }
          }
        }
      }
      r
    else
      var rest := Insert(x, s[1..]);
      var r := [s[0]] + rest;
      assert s == [s[0]] + s[1..];
      forall j | 0 < j < |r| ensures !Less(r[j], s[0]) {
        assert r[j] in multiset(rest);
        if r[j] == x { LessTotal(s[0], x); }
        else {
          assert r[j] in multiset(s[1..]);
          var k :| 0 <= k < |s[1..]| && s[1..][k] == r[j];
          assert s[k + 1] == r[j];
        }
      }
      r
  }

  /** sort.Strings: the same strings, in order. */
  function SortStrings(s: seq<string>): (r: seq<string>)
    ensures Sorted(r) && multiset(r) == multiset(s)
  {
    if s == [] then []
    else
      assert s == [s[0]] + s[1..];
      Insert(s[0], SortStrings(s[1..]))
  }

  predicate Distinct(s: seq<string>) {
    forall i, j :: 0 <= i < j < |s| ==> s[i] != s[j]
  }

  lemma {:induction false} DistinctOnce(s: seq<string>, x: string)
    requires Distinct(s)
    ensures multiset(s)[x] <= 1
  {
    if s != [] {
      assert s == [s[0]] + s[1..];
      DistinctOnce(s[1..], x);
      if x == s[0] {
        assert x !in s[1..];
      }
    }
  }

  lemma OnceDistinct(s: seq<string>)
    requires forall x :: multiset(s)[x] <= 1
    ensures Distinct(s)
  {
    forall i, j | 0 <= i < j < |s| ensures s[i] != s[j] {
      TwiceCounted(s, i, j);
    }
  }

  /** A string at two positions is counted twice. */
  lemma TwiceCounted(s: seq<string>, i: nat, j: nat)
    requires i < j < |s|
    ensures s[i] == s[j] ==> multiset(s)[s[i]] >= 2
  {
    assert s == s[..j] + s[j..];
    assert s[i] == s[..j][i] && s[j] == s[j..][0];
    assert multiset(s)[s[i]] == multiset(s[..j])[s[i]] + multiset(s[j..])[s[i]];
  }

  /** Sorting distinct keys puts each strictly before the next. */
  lemma SortedDistinct(keys: seq<string>)
    requires Distinct(keys)
    ensures var r := SortStrings(keys);
      Distinct(r) && forall i, j :: 0 <= i < j < |r| ==> Less(r[i], r[j])
  {
    var r := SortStrings(keys);
    forall x { DistinctOnce(keys, x); }
    OnceDistinct(r);
    forall i, j | 0 <= i < j < |r| ensures Less(r[i], r[j]) {
      LessTotal(r[i], r[j]);
    }
  }

  // ---------------------------------------------------------------------------
  // Export

  /** The rows written to one file, and its name. */
  datatype Sheet = Sheet(key: string, fileName: string, rows: seq<seq<string>>)

  function SheetFor(key: string, occ: seq<Occurrence>): Sheet {
    Sheet(key, SanitizeFilename(key) + ".csv", [Header] + Rows(occ))
  }

  /** One file's loop: the header, then a row per listed occurrence. */
  method WriteSheet(key: string, occ: seq<Occurrence>) returns (sheet: Sheet)
    ensures sheet == SheetFor(key, occ)
  {
    var rows := [Header];
    for i := 0 to |occ|
      invariant rows == [Header] + Rows(occ[..i])
    {
      var row := FillRow(occ[i]);
      assert occ[..i + 1][..i] == occ[..i];
      if row.Some? {
        rows := rows + [row.value];
      }
    }
    assert occ[..|occ|] == occ;
    sheet := Sheet(key, SanitizeFilename(key) + ".csv", rows);
  }

  /** The first loop of Export: every key of the map, once each, in
      whatever order the map yields them. */
  method CollectKeys(dialogs: map<string, seq<Occurrence>>) returns (keys: seq<string>)
    ensures Distinct(keys) && |keys| == |dialogs|
    ensures forall k :: k in keys <==> k in dialogs
  {
    keys := [];
    var rest := dialogs.Keys;
    while rest != {}
      invariant rest <= dialogs.Keys && |keys| + |rest| == |dialogs.Keys|
      invariant Distinct(keys)
      invariant forall i :: 0 <= i < |keys| ==> keys[i] in dialogs && keys[i] !in rest
      invariant forall k :: k in dialogs ==> k in rest || k in keys
      decreases |rest|
    {
      var k :| k in rest;
      keys := keys + [k];
      rest := rest - {k};
    }
  }

  /** The second loop of Export: one sheet per key, in the order given. */
  method WriteSheets(dialogs: map<string, seq<Occurrence>>, keys: seq<string>) returns (sheets: seq<Sheet>)
    requires forall k :: k in keys ==> k in dialogs
    ensures |sheets| == |keys|
    ensures forall i :: 0 <= i < |keys| ==> sheets[i] == SheetFor(keys[i], dialogs[keys[i]])
  {
    sheets := [];
    for i := 0 to |keys|
      invariant |sheets| == i
      invariant forall m :: 0 <= m < i ==> sheets[m] == SheetFor(keys[m], dialogs[keys[m]])
    {
      var sheet := WriteSheet(keys[i], dialogs[keys[i]]);
      sheets := sheets + [sheet];
    }
  }

  /** Export: the keys of the parsed files in sorted order, one sheet per
      key. */
  method Export(dialogs: map<string, seq<Occurrence>>) returns (sheets: seq<Sheet>)
    ensures |sheets| == |dialogs|
    ensures forall i, j :: 0 <= i < j < |sheets| ==> Less(sheets[i].key, sheets[j].key)
    ensures forall i :: 0 <= i < |sheets| ==>
      sheets[i].key in dialogs && sheets[i] == SheetFor(sheets[i].key, dialogs[sheets[i].key])
    ensures forall k :: k in dialogs ==> exists i :: 0 <= i < |sheets| && sheets[i].key == k
  {
    var keys := CollectKeys(dialogs);
    SortedDistinct(keys);
    var sorted := SortStrings(keys);
    assert forall k :: k in sorted <==> k in keys by {
      forall k ensures k in sorted <==> k in keys {
        assert k in sorted <==> k in multiset(sorted);
        assert k in keys <==> k in multiset(keys);
      }
    }
    sheets := WriteSheets(dialogs, sorted);
    forall k | k in dialogs ensures exists i :: 0 <= i < |sheets| && sheets[i].key == k {
      var i :| 0 <= i < |sorted| && sorted[i] == k;
      assert sheets[i].key == k;
    }
  }
}
