/** The regular expressions of internal/d/parser.go:17-79, each written as a
    hand-made matcher for its one shape.  Every matcher comes with a ghost
    "shape" predicate that reads like the pattern (positions of each piece,
    the character class of each run, the lazy `~.*?~` taking the first
    closing tilde that lets the rest match, the greedy runs taking the
    longest), and lemmas proving that the matcher answers exactly for the
    lines of that shape, with the captures the shape names.

    Go's regexp details kept: `\s` is [\t\n\f\r ]; `.` is any character but
    '\n'; `\d` is [0-9]; `\b` is an ASCII word boundary; `(?i)` folds ASCII
    letters and, for 'K' and 'S', the Kelvin sign and the long s as well,
    including inside the class [A-Za-z0-9_#.\-]. */
module DPatterns {
  import opened Text
  import opened Wrappers

  // ---------------------------------------------------------------------------
  // Character classes and runs

  /** Go regexp's `\s`. */
  predicate IsRegexSpace(c: char) {
    c == '\t' || c == '\n' || c == '\U{C}' || c == '\r' || c == ' '
  }

  /** The identifier class `[A-Za-z0-9_#.\-]` under `(?i)`. */
  predicate IsIdChar(c: char) {
    || ('A' <= c <= 'Z') || ('a' <= c <= 'z') || IsDigit(c)
    || c == '_' || c == '#' || c == '.' || c == '-'
    || c == '\U{17F}' || c == '\U{212A}'
  }

  /** `\w`, the characters `\b` looks at. */
  predicate IsWordChar(c: char) {
    ('A' <= c <= 'Z') || ('a' <= c <= 'z') || IsDigit(c) || c == '_'
  }

  /** The runs the patterns are made of: `\s`, the identifier class, `\d`
      and `[^~]`. */
  datatype CharClass = Space | Ident | Digit | NotTilde

  predicate InClass(c: char, k: CharClass) {
    match k
    case Space => IsRegexSpace(c)
    case Ident => IsIdChar(c)
    case Digit => IsDigit(c)
    case NotTilde => c != '~'
  }

  /** Every position of `s[lo..hi]` exists and is in class `k`.  Written as
      a recursion rather than a quantifier, so that the solver looks inside
      only where a proof asks it to. */
  predicate AllIn(s: string, lo: nat, hi: nat, k: CharClass)
    decreases hi - lo
  {
    lo >= hi || (lo < |s| && InClass(s[lo], k) && AllIn(s, lo + 1, hi, k))
  }

  /** One position of a run. */
  lemma {:induction false} AllInAt(s: string, lo: nat, hi: nat, k: CharClass, j: nat)
    requires AllIn(s, lo, hi, k) && lo <= j < hi
    ensures j < |s| && InClass(s[j], k)
    decreases hi - lo
  {
    if lo < j {
      AllInAt(s, lo + 1, hi, k, j);
    }
  }

  /** End of the longest run of class `k` starting at `i` (a greedy `k*`). */
  function Skip(s: string, i: nat, k: CharClass): (j: nat)
    requires i <= |s|
    ensures i <= j <= |s|
    decreases |s| - i
  {
    if i < |s| && InClass(s[i], k) then Skip(s, i + 1, k) else i
  }

  /** Skip stops at the end of the run: everything before is in the class,
      the character it stops at is not. */
  lemma SkipRun(s: string, i: nat, k: CharClass)
    requires i <= |s|
    ensures AllIn(s, i, Skip(s, i, k), k)
    ensures Skip(s, i, k) == |s| || !InClass(s[Skip(s, i, k)], k)
    decreases |s| - i
  {
    if i < |s| && InClass(s[i], k) {
      SkipRun(s, i + 1, k);
    }
  }

  /** A run that ends where the class ends is the run Skip finds. */
  lemma SkipIs(s: string, i: nat, j: nat, k: CharClass)
    requires i <= j <= |s| && AllIn(s, i, j, k) && (j == |s| || !InClass(s[j], k))
    ensures Skip(s, i, k) == j
    decreases j - i
  {
    if i < j {
      SkipIs(s, i + 1, j, k);
    }
  }

  /** A literal under `(?i)`: `u` is an upper-case ASCII letter or not a letter. */
  predicate FoldIs(c: char, u: char) {
    || c == u
    || (IsUpperAscii(u) && c == ToLowerAscii(u))
    || (u == 'K' && c == '\U{212A}')
    || (u == 'S' && c == '\U{17F}')
  }

  /** The case-insensitive literal `w` at position `i`. */
  predicate KeywordAt(s: string, i: nat, w: string) {
    i + |w| <= |s| && forall m {:trigger w[m]} :: 0 <= m < |w| ==> FoldIs(s[i + m], w[m])
  }

  /** A keyword starting with a letter starts with an identifier character
      that is neither white space nor a digit nor a tilde. */
  lemma KeywordStart(s: string, i: nat, w: string)
    requires KeywordAt(s, i, w) && |w| > 0 && IsUpperAscii(w[0])
    ensures i < |s| && !IsRegexSpace(s[i]) && !IsDigit(s[i]) && s[i] != '~' && s[i] != '@'
  {
    assert FoldIs(s[i + 0], w[0]);
  }

  /** `\b` at position `i`. */
  predicate Boundary(s: string, i: nat)
    requires i <= |s|
  {
    (i > 0 && IsWordChar(s[i - 1])) != (i < |s| && IsWordChar(s[i]))
  }

  // ---------------------------------------------------------------------------
  // Pieces that end a line: `@(\d+)\s*$`, two names, and the four tails that
  // follow a lazy `~.*?~`.  Each is a test (a conjunction, cheap to unfold)
  // and a function reading its captures.

  /** No newline in `s[lo..hi]`, which exists: what `.*` can cross. */
  predicate NoNewline(s: string, lo: nat, hi: nat)
    decreases hi - lo
  {
    lo >= hi || (lo < |s| && s[lo] != '\n' && NoNewline(s, lo + 1, hi))
  }

  /** Decides NoNewline(s, k, |s|), i.e. whether `(.*)$` can take the rest. */
  function NoNewlineFrom(s: string, k: nat): (b: bool)
    requires k <= |s|
    ensures b <==> NoNewline(s, k, |s|)
    decreases |s| - k
  {
    if k == |s| then true else s[k] != '\n' && NoNewlineFrom(s, k + 1)
  }

  /** The value of the digits `s[lo..hi]`. */
  function NumberAt(s: string, lo: nat, hi: nat): nat
    requires lo <= hi <= |s| && AllIn(s, lo, hi, Digit)
  {
    assert AllDigits(s[lo..hi]) by {
      forall m | 0 <= m < hi - lo ensures IsDigit(s[lo..hi][m]) {
        AllInAt(s, lo, hi, Digit, lo + m);
      }
    }
    DigitsValue(s[lo..hi])
  }

  /** `@(\d+)\s*$` from `at`: the digits are `s[at+1..e]`. */
  ghost predicate AtNumberShape(s: string, at: nat, e: nat) {
    && at + 1 < e <= |s| && s[at] == '@'
    && AllIn(s, at + 1, e, Digit) && AllIn(s, e, |s|, Space)
  }

  predicate AtNumberOk(s: string, at: nat)
    requires at <= |s|
  {
    && at < |s| && s[at] == '@'
    && var e := Skip(s, at + 1, Digit);
       e != at + 1 && Skip(s, e, Space) == |s|
  }

  function AtNumber(s: string, at: nat): nat
    requires at <= |s| && AtNumberOk(s, at)
  {
    SkipRun(s, at + 1, Digit);
    NumberAt(s, at + 1, Skip(s, at + 1, Digit))
  }

  lemma AtNumberSound(s: string, at: nat) returns (e: nat)
    requires at <= |s| && AtNumberOk(s, at)
    ensures AtNumberShape(s, at, e) && AtNumber(s, at) == NumberAt(s, at + 1, e)
  {
    e := Skip(s, at + 1, Digit);
    SkipRun(s, at + 1, Digit);
    SkipRun(s, e, Space);
  }

  lemma AtNumberComplete(s: string, at: nat, e: nat)
    requires AtNumberShape(s, at, e)
    ensures AtNumberOk(s, at) && AtNumber(s, at) == NumberAt(s, at + 1, e)
  {
    SkipIs(s, at + 1, e, Digit);
    SkipIs(s, e, |s|, Space);
  }

  /** `([id]+)\s+([id]+)\s*$` from `p1`: two names, `s[p1..q1]` and `s[p2..q2]`. */
  ghost predicate TwoIdsShape(s: string, p1: nat, q1: nat, p2: nat, q2: nat) {
    && p1 < q1 < p2 < q2 <= |s|
    && AllIn(s, p1, q1, Ident) && AllIn(s, q1, p2, Space)
    && AllIn(s, p2, q2, Ident) && AllIn(s, q2, |s|, Space)
  }

  predicate TwoIdsOk(s: string, p1: nat)
    requires p1 <= |s|
  {
    var q1 := Skip(s, p1, Ident);
    var p2 := Skip(s, q1, Space);
    var q2 := Skip(s, p2, Ident);
    q1 != p1 && p2 != q1 && q2 != p2 && Skip(s, q2, Space) == |s|
  }

  function TwoIds(s: string, p1: nat): (string, string)
    requires p1 <= |s|
  {
    var q1 := Skip(s, p1, Ident);
    var p2 := Skip(s, q1, Space);
    var q2 := Skip(s, p2, Ident);
    (s[p1..q1], s[p2..q2])
  }

  lemma TwoIdsSound(s: string, p1: nat) returns (q1: nat, p2: nat, q2: nat)
    requires p1 <= |s| && TwoIdsOk(s, p1)
    ensures TwoIdsShape(s, p1, q1, p2, q2) && TwoIds(s, p1) == (s[p1..q1], s[p2..q2])
  {
    q1 := Skip(s, p1, Ident);
    p2 := Skip(s, q1, Space);
    q2 := Skip(s, p2, Ident);
    SkipRun(s, p1, Ident);
    SkipRun(s, q1, Space);
    SkipRun(s, p2, Ident);
    SkipRun(s, q2, Space);
  }

  lemma TwoIdsComplete(s: string, p1: nat, q1: nat, p2: nat, q2: nat)
    requires TwoIdsShape(s, p1, q1, p2, q2)
    ensures TwoIdsOk(s, p1) && TwoIds(s, p1) == (s[p1..q1], s[p2..q2])
  {
    SkipIs(s, p1, q1, Ident);
    SkipIs(s, q1, p2, Space);
    SkipIs(s, p2, q2, Ident);
    SkipIs(s, q2, |s|, Space);
  }

  /** Past the start of two names only names and blanks follow. */
  lemma TwoIdsRest(s: string, p1: nat, q1: nat, p2: nat, q2: nat, j: nat)
    requires TwoIdsShape(s, p1, q1, p2, q2) && p1 <= j < |s|
    ensures InClass(s[j], Ident) || InClass(s[j], Space)
  {
    if j < q1 {
      AllInAt(s, p1, q1, Ident, j);
    } else if j < p2 {
      AllInAt(s, q1, p2, Space, j);
    } else if j < q2 {
      AllInAt(s, p2, q2, Ident, j);
    } else {
      AllInAt(s, q2, |s|, Space, j);
    }
  }

  /** `\s*THEN\s*BEGIN\s+([id]+)\s*$` from `j`; the state is `s[p..q]`. */
  ghost predicate StateTailShape(s: string, j: nat, c: nat, d: nat, p: nat, q: nat) {
    && j <= c && c + 4 <= d && d + 5 < p < q <= |s|
    && AllIn(s, j, c, Space) && KeywordAt(s, c, "THEN")
    && AllIn(s, c + 4, d, Space) && KeywordAt(s, d, "BEGIN")
    && AllIn(s, d + 5, p, Space) && AllIn(s, p, q, Ident) && AllIn(s, q, |s|, Space)
  }

  predicate StateTailOk(s: string, j: nat)
    requires j <= |s|
  {
    var c := Skip(s, j, Space);
    && KeywordAt(s, c, "THEN")
    && var d := Skip(s, c + 4, Space);
       && KeywordAt(s, d, "BEGIN")
       && var p := Skip(s, d + 5, Space);
          var q := Skip(s, p, Ident);
          p != d + 5 && q != p && Skip(s, q, Space) == |s|
  }

  function StateTailName(s: string, j: nat): string
    requires j <= |s| && StateTailOk(s, j)
  {
    var c := Skip(s, j, Space);
    var d := Skip(s, c + 4, Space);
    var p := Skip(s, d + 5, Space);
    s[p..Skip(s, p, Ident)]
  }

  lemma StateTailSound(s: string, j: nat) returns (c: nat, d: nat, p: nat, q: nat)
    requires j <= |s| && StateTailOk(s, j)
    ensures StateTailShape(s, j, c, d, p, q) && StateTailName(s, j) == s[p..q]
  {
    c := Skip(s, j, Space);
    d := Skip(s, c + 4, Space);
    p := Skip(s, d + 5, Space);
    q := Skip(s, p, Ident);
    SkipRun(s, j, Space);
    SkipRun(s, c + 4, Space);
    SkipRun(s, d + 5, Space);
    SkipRun(s, p, Ident);
    SkipRun(s, q, Space);
  }

  lemma StateTailComplete(s: string, j: nat, c: nat, d: nat, p: nat, q: nat)
    requires StateTailShape(s, j, c, d, p, q)
    ensures StateTailOk(s, j) && StateTailName(s, j) == s[p..q]
  {
    KeywordStart(s, c, "THEN");
    SkipIs(s, j, c, Space);
    KeywordStart(s, d, "BEGIN");
    SkipIs(s, c + 4, d, Space);
    SkipIs(s, d + 5, p, Space);
    SkipIs(s, p, q, Ident);
    SkipIs(s, q, |s|, Space);
  }

  /** `\s*THEN\s*REPLY\s+@(\d+)\s*(.*)$` from `j`: the id's digits are
      `s[at+1..e]` and the rest is `s[r..]`.  Both `\d+` and `\s*` are greedy,
      so the digits and the blanks before the rest are as long as possible. */
  ghost predicate ReplyTailShape(s: string, j: nat, c: nat, d: nat, at: nat, e: nat, r: nat) {
    && j <= c && c + 4 <= d && d + 5 < at && at + 1 < e <= r <= |s|
    && AllIn(s, j, c, Space) && KeywordAt(s, c, "THEN")
    && AllIn(s, c + 4, d, Space) && KeywordAt(s, d, "REPLY")
    && AllIn(s, d + 5, at, Space) && s[at] == '@'
    && AllIn(s, at + 1, e, Digit) && (e == |s| || !IsDigit(s[e]))
    && AllIn(s, e, r, Space) && (r == |s| || !IsRegexSpace(s[r]))
    && NoNewline(s, r, |s|)
  }

  predicate ReplyTailOk(s: string, j: nat)
    requires j <= |s|
  {
    var c := Skip(s, j, Space);
    && KeywordAt(s, c, "THEN")
    && var d := Skip(s, c + 4, Space);
       && KeywordAt(s, d, "REPLY")
       && var at := Skip(s, d + 5, Space);
          && at != d + 5 && at < |s| && s[at] == '@'
          && var e := Skip(s, at + 1, Digit);
             e != at + 1 && NoNewlineFrom(s, Skip(s, e, Space))
  }

  /** The two captures of the reply tail: the text id and the rest of the line. */
  datatype ReplyTail = ReplyTail(id: nat, rest: string)

  function ReplyTailCaptures(s: string, j: nat): ReplyTail
    requires j <= |s| && ReplyTailOk(s, j)
  {
    var c := Skip(s, j, Space);
    var d := Skip(s, c + 4, Space);
    var at := Skip(s, d + 5, Space);
    var e := Skip(s, at + 1, Digit);
    SkipRun(s, at + 1, Digit);
    ReplyTail(NumberAt(s, at + 1, e), s[Skip(s, e, Space)..])
  }

  lemma ReplyTailSound(s: string, j: nat) returns (c: nat, d: nat, at: nat, e: nat, r: nat)
    requires j <= |s| && ReplyTailOk(s, j)
    ensures ReplyTailShape(s, j, c, d, at, e, r)
    ensures ReplyTailCaptures(s, j) == ReplyTail(NumberAt(s, at + 1, e), s[r..])
  {
    c := Skip(s, j, Space);
    d := Skip(s, c + 4, Space);
    at := Skip(s, d + 5, Space);
    e := Skip(s, at + 1, Digit);
    r := Skip(s, e, Space);
    SkipRun(s, j, Space);
    SkipRun(s, c + 4, Space);
    SkipRun(s, d + 5, Space);
    SkipRun(s, at + 1, Digit);
    SkipRun(s, e, Space);
  }

  lemma ReplyTailComplete(s: string, j: nat, c: nat, d: nat, at: nat, e: nat, r: nat)
    requires ReplyTailShape(s, j, c, d, at, e, r)
    ensures ReplyTailOk(s, j) && ReplyTailCaptures(s, j) == ReplyTail(NumberAt(s, at + 1, e), s[r..])
  {
    ReplyTailRuns(s, j, c, d, at, e, r);
  }

  /** The runs of a reply tail are the ones the matcher skips. */
  lemma ReplyTailRuns(s: string, j: nat, c: nat, d: nat, at: nat, e: nat, r: nat)
    requires ReplyTailShape(s, j, c, d, at, e, r)
    ensures Skip(s, j, Space) == c && Skip(s, c + 4, Space) == d && Skip(s, d + 5, Space) == at
    ensures Skip(s, at + 1, Digit) == e && Skip(s, e, Space) == r
  {
    KeywordStart(s, c, "THEN");
    SkipIs(s, j, c, Space);
    KeywordStart(s, d, "REPLY");
    SkipIs(s, c + 4, d, Space);
    SkipIs(s, d + 5, at, Space);
    SkipIs(s, at + 1, e, Digit);
    SkipIs(s, e, r, Space);
  }

  /** `\s*THEN\s+([id]+)\s+([id]+)\s*$` from `j`: dialog and state. */
  ghost predicate ChainTailShape(s: string, j: nat, c: nat, p1: nat, q1: nat, p2: nat, q2: nat) {
    && j <= c && c + 4 < p1 <= |s|
    && AllIn(s, j, c, Space) && KeywordAt(s, c, "THEN")
    && AllIn(s, c + 4, p1, Space) && TwoIdsShape(s, p1, q1, p2, q2)
  }

  predicate ChainTailOk(s: string, j: nat)
    requires j <= |s|
  {
    var c := Skip(s, j, Space);
    && KeywordAt(s, c, "THEN")
    && var p1 := Skip(s, c + 4, Space);
       p1 != c + 4 && TwoIdsOk(s, p1)
  }

  function ChainTailNames(s: string, j: nat): (string, string)
    requires j <= |s| && ChainTailOk(s, j)
  {
    var c := Skip(s, j, Space);
    TwoIds(s, Skip(s, c + 4, Space))
  }

  lemma ChainTailSound(s: string, j: nat) returns (c: nat, p1: nat, q1: nat, p2: nat, q2: nat)
    requires j <= |s| && ChainTailOk(s, j)
    ensures ChainTailShape(s, j, c, p1, q1, p2, q2) && ChainTailNames(s, j) == (s[p1..q1], s[p2..q2])
  {
    c := Skip(s, j, Space);
    p1 := Skip(s, c + 4, Space);
    SkipRun(s, j, Space);
    SkipRun(s, c + 4, Space);
    q1, p2, q2 := TwoIdsSound(s, p1);
  }

  lemma ChainTailComplete(s: string, j: nat, c: nat, p1: nat, q1: nat, p2: nat, q2: nat)
    requires ChainTailShape(s, j, c, p1, q1, p2, q2)
    ensures ChainTailOk(s, j) && ChainTailNames(s, j) == (s[p1..q1], s[p2..q2])
  {
    KeywordStart(s, c, "THEN");
    SkipIs(s, j, c, Space);
    SkipIs(s, c + 4, p1, Space);
    TwoIdsComplete(s, p1, q1, p2, q2);
  }

  /** `\s*THEN\s+@(\d+)\s*$` from `j`. */
  ghost predicate InterjectTailShape(s: string, j: nat, c: nat, at: nat, e: nat) {
    && j <= c && c + 4 < at <= |s|
    && AllIn(s, j, c, Space) && KeywordAt(s, c, "THEN")
    && AllIn(s, c + 4, at, Space) && AtNumberShape(s, at, e)
  }

  predicate InterjectTailOk(s: string, j: nat)
    requires j <= |s|
  {
    var c := Skip(s, j, Space);
    && KeywordAt(s, c, "THEN")
    && var at := Skip(s, c + 4, Space);
       at != c + 4 && AtNumberOk(s, at)
  }

  function InterjectTailId(s: string, j: nat): nat
    requires j <= |s| && InterjectTailOk(s, j)
  {
    var c := Skip(s, j, Space);
    AtNumber(s, Skip(s, c + 4, Space))
  }

  lemma InterjectTailSound(s: string, j: nat) returns (c: nat, at: nat, e: nat)
    requires j <= |s| && InterjectTailOk(s, j)
    ensures InterjectTailShape(s, j, c, at, e) && InterjectTailId(s, j) == NumberAt(s, at + 1, e)
  {
    c := Skip(s, j, Space);
    at := Skip(s, c + 4, Space);
    SkipRun(s, j, Space);
    SkipRun(s, c + 4, Space);
    e := AtNumberSound(s, at);
  }

  lemma InterjectTailComplete(s: string, j: nat, c: nat, at: nat, e: nat)
    requires InterjectTailShape(s, j, c, at, e)
    ensures InterjectTailOk(s, j) && InterjectTailId(s, j) == NumberAt(s, at + 1, e)
  {
    KeywordStart(s, c, "THEN");
    SkipIs(s, j, c, Space);
    SkipIs(s, c + 4, at, Space);
    AtNumberComplete(s, at, e);
  }

  // ---------------------------------------------------------------------------
  // The lazy `~.*?~`

  /** The closing tilde for an opening one just before `j`: the first tilde,
      before any newline, after which the rest of the pattern (`ok`) matches. */
  function Closer(s: string, j: nat, ok: nat -> bool): (r: Option<nat>)
    requires j <= |s|
    ensures r.Some? ==> j <= r.value < |s|
    decreases |s| - j
  {
    if j == |s| then None
    else if s[j] == '~' && ok(j + 1) then Some(j)
    else if s[j] == '\n' then None
    else Closer(s, j + 1, ok)
  }

  /** No tilde in `s[lo..hi]` after which the rest matches: no closer the
      lazy `.*?` would have stopped at. */
  predicate NoCloser(s: string, lo: nat, hi: nat, ok: nat -> bool)
    decreases hi - lo
  {
    lo >= hi || (lo < |s| && (s[lo] == '~' ==> !ok(lo + 1)) && NoCloser(s, lo + 1, hi, ok))
  }

  /** `~.*?~` followed by a rest that matches where `ok` holds, with the
      tildes at `t0` and `t1`: no newline between them, the rest matches after
      `t1` and after no earlier tilde (the lazy `.*?` stops at the first
      closer that works). */
  ghost predicate LazyClose(s: string, t0: nat, t1: nat, ok: nat -> bool) {
    && t0 < t1 < |s| && s[t0] == '~' && s[t1] == '~'
    && NoNewline(s, t0 + 1, t1) && ok(t1 + 1) && NoCloser(s, t0 + 1, t1, ok)
  }

  /** What the search from `j` finds: a closer with no newline and no
      working tilde before it. */
  lemma {:induction false} CloserFinds(s: string, j: nat, ok: nat -> bool)
    requires j <= |s| && Closer(s, j, ok).Some?
    ensures var t1 := Closer(s, j, ok).value;
            s[t1] == '~' && NoNewline(s, j, t1) && ok(t1 + 1) && NoCloser(s, j, t1, ok)
    decreases |s| - j
  {
    if !(s[j] == '~' && ok(j + 1)) {
      CloserFinds(s, j + 1, ok);
    }
  }

  /** The search from `j` reaches every closer that has no newline and no
      working tilde before it. */
  lemma {:induction false} CloserReaches(s: string, j: nat, t1: nat, ok: nat -> bool)
    requires j <= t1 < |s| && s[t1] == '~' && NoNewline(s, j, t1) && ok(t1 + 1)
    requires NoCloser(s, j, t1, ok)
    ensures Closer(s, j, ok) == Some(t1)
    decreases t1 - j
  {
    if j < t1 {
      CloserReaches(s, j + 1, t1, ok);
    }
  }

  lemma CloserSound(s: string, t0: nat, ok: nat -> bool)
    requires t0 < |s| && s[t0] == '~' && Closer(s, t0 + 1, ok).Some?
    ensures LazyClose(s, t0, Closer(s, t0 + 1, ok).value, ok)
  {
    CloserFinds(s, t0 + 1, ok);
  }

  lemma CloserComplete(s: string, t0: nat, t1: nat, ok: nat -> bool)
    requires LazyClose(s, t0, t1, ok)
    ensures Closer(s, t0 + 1, ok) == Some(t1)
  {
    CloserReaches(s, t0 + 1, t1, ok);
  }

  /** Each tail as a test on a position, for the lazy search. */
  function StateTailTest(s: string): nat -> bool {
    (k: nat) => k <= |s| && StateTailOk(s, k)
  }

  function ReplyTailTest(s: string): nat -> bool {
    (k: nat) => k <= |s| && ReplyTailOk(s, k)
  }

  function ChainTailTest(s: string): nat -> bool {
    (k: nat) => k <= |s| && ChainTailOk(s, k)
  }

  function InterjectTailTest(s: string): nat -> bool {
    (k: nat) => k <= |s| && InterjectTailOk(s, k)
  }

  /** Reading a test back as its tail; kept apart, where nothing else is in
      scope, because the solver is slow to apply the closures elsewhere. */
  lemma StateTailHolds(s: string, k: nat)
    requires StateTailTest(s)(k)
    ensures k <= |s| && StateTailOk(s, k)
  {
  }

  lemma ReplyTailHolds(s: string, k: nat)
    requires ReplyTailTest(s)(k)
    ensures k <= |s| && ReplyTailOk(s, k)
  {
  }

  lemma ChainTailHolds(s: string, k: nat)
    requires ChainTailTest(s)(k)
    ensures k <= |s| && ChainTailOk(s, k)
  {
  }

  lemma InterjectTailHolds(s: string, k: nat)
    requires InterjectTailTest(s)(k)
    ensures k <= |s| && InterjectTailOk(s, k)
  {
  }

  // ---------------------------------------------------------------------------
  // The anchored line patterns.  Each is a test `…Ok` (the line has the
  // shape), a reading of its captures, and `Match…`, which is the pair the way
  // FindStringSubmatch returns it: nothing, or the captures.

  /** reBeginDlg, `^\s*BEGIN\s+~?([id]+)~?\s*$`: the dialog is `s[p..q]`. */
  ghost predicate BeginDlgShape(s: string, a: nat, b: nat, p: nat, q: nat, z: nat) {
    && a + 5 < b <= p < q <= z <= |s|
    && AllIn(s, 0, a, Space) && KeywordAt(s, a, "BEGIN") && AllIn(s, a + 5, b, Space)
    && (p == b || (p == b + 1 && s[b] == '~'))
    && AllIn(s, p, q, Ident)
    && (z == q || (z == q + 1 && s[q] == '~'))
    && AllIn(s, z, |s|, Space)
  }

  /** Where the name starts: after an optional tilde at `b`. */
  function OptTilde(s: string, b: nat): (p: nat)
    requires b <= |s|
    ensures p <= |s|
  {
    if b < |s| && s[b] == '~' then b + 1 else b
  }

  predicate BeginDlgOk(s: string) {
    var a := Skip(s, 0, Space);
    && KeywordAt(s, a, "BEGIN")
    && var b := Skip(s, a + 5, Space);
       var p := OptTilde(s, b);
       var q := Skip(s, p, Ident);
       b != a + 5 && q != p && Skip(s, OptTilde(s, q), Space) == |s|
  }

  function BeginDlgName(s: string): string
    requires BeginDlgOk(s)
  {
    var a := Skip(s, 0, Space);
    var p := OptTilde(s, Skip(s, a + 5, Space));
    s[p..Skip(s, p, Ident)]
  }

  function MatchBeginDlg(s: string): Option<string> {
    if BeginDlgOk(s) then Some(BeginDlgName(s)) else None
  }

  lemma BeginDlgSound(s: string) returns (a: nat, b: nat, p: nat, q: nat, z: nat)
    requires BeginDlgOk(s)
    ensures BeginDlgShape(s, a, b, p, q, z) && BeginDlgName(s) == s[p..q]
  {
    a := Skip(s, 0, Space);
    b := Skip(s, a + 5, Space);
    p := OptTilde(s, b);
    q := Skip(s, p, Ident);
    z := OptTilde(s, q);
    SkipRun(s, 0, Space);
    SkipRun(s, a + 5, Space);
    SkipRun(s, p, Ident);
    SkipRun(s, z, Space);
  }

  lemma BeginDlgComplete(s: string, a: nat, b: nat, p: nat, q: nat, z: nat)
    requires BeginDlgShape(s, a, b, p, q, z)
    ensures BeginDlgOk(s) && BeginDlgName(s) == s[p..q]
  {
    KeywordStart(s, a, "BEGIN");
    SkipIs(s, 0, a, Space);
    assert IsIdChar(s[p]);
    SkipIs(s, a + 5, b, Space);
    SkipIs(s, p, q, Ident);
    SkipIs(s, z, |s|, Space);
  }

  /** `~([^~]+)~\s+([id]+)\s*$` of reExtend from the tilde at `b`: the
      dialog is `s[b+1..x]` and the state `s[p..q]`. */
  ghost predicate ExtendRestShape(s: string, b: nat, x: nat, p: nat, q: nat) {
    && b + 1 < x && x + 1 < p < q <= |s|
    && s[b] == '~' && AllIn(s, b + 1, x, NotTilde) && s[x] == '~'
    && AllIn(s, x + 1, p, Space) && AllIn(s, p, q, Ident) && AllIn(s, q, |s|, Space)
  }

  predicate ExtendRestOk(s: string, b: nat)
    requires b <= |s|
  {
    && b < |s| && s[b] == '~'
    && var x := Skip(s, b + 1, NotTilde);
       && x != b + 1 && x < |s|
       && var p := Skip(s, x + 1, Space);
          var q := Skip(s, p, Ident);
          p != x + 1 && q != p && Skip(s, q, Space) == |s|
  }

  function ExtendRestNames(s: string, b: nat): (string, string)
    requires b <= |s| && ExtendRestOk(s, b)
  {
    var x := Skip(s, b + 1, NotTilde);
    var p := Skip(s, x + 1, Space);
    (s[b + 1..x], s[p..Skip(s, p, Ident)])
  }

  lemma ExtendRestSound(s: string, b: nat) returns (x: nat, p: nat, q: nat)
    requires b <= |s| && ExtendRestOk(s, b)
    ensures ExtendRestShape(s, b, x, p, q) && ExtendRestNames(s, b) == (s[b + 1..x], s[p..q])
  {
    x := Skip(s, b + 1, NotTilde);
    p := Skip(s, x + 1, Space);
    q := Skip(s, p, Ident);
    SkipRun(s, b + 1, NotTilde);
    SkipRun(s, x + 1, Space);
    SkipRun(s, p, Ident);
    SkipRun(s, q, Space);
  }

  lemma ExtendRestComplete(s: string, b: nat, x: nat, p: nat, q: nat)
    requires ExtendRestShape(s, b, x, p, q)
    ensures ExtendRestOk(s, b) && ExtendRestNames(s, b) == (s[b + 1..x], s[p..q])
  {
    SkipIs(s, b + 1, x, NotTilde);
    SkipIs(s, x + 1, p, Space);
    SkipIs(s, p, q, Ident);
    SkipIs(s, q, |s|, Space);
  }

  /** reExtend, `^\s*EXTEND_(?:BOTTOM|TOP)\s+~([^~]+)~\s+([id]+)\s*$`, with
      the keyword ending at `k` and the first tilde at `b`. */
  ghost predicate ExtendShape(s: string, a: nat, k: nat, b: nat, x: nat, p: nat, q: nat) {
    && a + 7 < k < b
    && AllIn(s, 0, a, Space) && KeywordAt(s, a, "EXTEND_")
    && ((k == a + 13 && KeywordAt(s, a + 7, "BOTTOM")) || (k == a + 10 && KeywordAt(s, a + 7, "TOP")))
    && AllIn(s, k, b, Space) && ExtendRestShape(s, b, x, p, q)
  }

  /** End of `BOTTOM` or `TOP` at `i`; `i` itself when neither is there. */
  function ExtendSide(s: string, i: nat): (k: nat)
    ensures k == i || k <= |s|
  {
    if KeywordAt(s, i, "BOTTOM") then i + 6
    else if KeywordAt(s, i, "TOP") then i + 3
    else i
  }

  predicate ExtendOk(s: string) {
    var a := Skip(s, 0, Space);
    && KeywordAt(s, a, "EXTEND_")
    && var k := ExtendSide(s, a + 7);
       && k != a + 7
       && var b := Skip(s, k, Space);
          b != k && ExtendRestOk(s, b)
  }

  function ExtendNames(s: string): (string, string)
    requires ExtendOk(s)
  {
    var a := Skip(s, 0, Space);
    ExtendRestNames(s, Skip(s, ExtendSide(s, a + 7), Space))
  }

  function MatchExtend(s: string): Option<(string, string)> {
    if ExtendOk(s) then Some(ExtendNames(s)) else None
  }

  lemma ExtendSound(s: string) returns (a: nat, k: nat, b: nat, x: nat, p: nat, q: nat)
    requires ExtendOk(s)
    ensures ExtendShape(s, a, k, b, x, p, q)
    ensures ExtendNames(s) == (s[b + 1..x], s[p..q])
  {
    a := Skip(s, 0, Space);
    k := ExtendSide(s, a + 7);
    b := Skip(s, k, Space);
    ExtendNamesRest(s);
    SkipRun(s, 0, Space);
    SkipRun(s, k, Space);
    x, p, q := ExtendRestSound(s, b);
  }

  lemma ExtendNamesRest(s: string)
    requires ExtendOk(s)
    ensures var b := Skip(s, ExtendSide(s, Skip(s, 0, Space) + 7), Space);
            ExtendRestOk(s, b) && ExtendNames(s) == ExtendRestNames(s, b)
  {
  }

  lemma ExtendComplete(s: string, a: nat, k: nat, b: nat, x: nat, p: nat, q: nat)
    requires ExtendShape(s, a, k, b, x, p, q)
    ensures ExtendOk(s) && ExtendNames(s) == (s[b + 1..x], s[p..q])
  {
    KeywordStart(s, a, "EXTEND_");
    SkipIs(s, 0, a, Space);
    if k == a + 10 {
      assert !KeywordAt(s, a + 7, "BOTTOM") by {
        assert FoldIs(s[(a + 7) + 0], "TOP"[0]);
        assert !FoldIs(s[(a + 7) + 0], "BOTTOM"[0]);
      }
    }
    assert ExtendSide(s, a + 7) == k;
    SkipIs(s, k, b, Space);
    ExtendRestComplete(s, b, x, p, q);
  }

  /** `IF\s*~.*?~` at `b`, followed by a rest that matches where `ok` holds:
      the conditions of reBeginState, reReply, reChainHeader and
      reInterjectIf, with the tildes at `t0` and `t1`. */
  ghost predicate IfCondShape(s: string, b: nat, t0: nat, t1: nat, ok: nat -> bool) {
    && b + 2 <= t0 && KeywordAt(s, b, "IF") && AllIn(s, b + 2, t0, Space)
    && LazyClose(s, t0, t1, ok)
  }

  /** Where a `~.*?~` opens after `IF\s*` at `b`. */
  function IfTilde(s: string, b: nat): (t0: nat)
    requires b + 2 <= |s|
    ensures t0 <= |s|
  {
    Skip(s, b + 2, Space)
  }

  predicate IfCondOk(s: string, b: nat, ok: nat -> bool)
    requires b <= |s|
  {
    && KeywordAt(s, b, "IF")
    && var t0 := IfTilde(s, b);
       t0 < |s| && s[t0] == '~' && Closer(s, t0 + 1, ok).Some?
  }

  /** The closing tilde the lazy search settles on. */
  function IfCondClose(s: string, b: nat, ok: nat -> bool): (t1: nat)
    requires b <= |s| && IfCondOk(s, b, ok)
    ensures IfTilde(s, b) < t1 < |s|
  {
    Closer(s, IfTilde(s, b) + 1, ok).value
  }

  /** The rest matches after the closing tilde. */
  lemma IfCondCloses(s: string, b: nat, ok: nat -> bool)
    requires b <= |s| && IfCondOk(s, b, ok)
    ensures ok(IfCondClose(s, b, ok) + 1)
  {
    CloserFinds(s, IfTilde(s, b) + 1, ok);
  }

  lemma IfCondSound(s: string, b: nat, ok: nat -> bool) returns (t0: nat, t1: nat)
    requires b <= |s| && IfCondOk(s, b, ok)
    ensures IfCondShape(s, b, t0, t1, ok) && t0 == IfTilde(s, b) && t1 == IfCondClose(s, b, ok)
  {
    t0 := IfTilde(s, b);
    SkipRun(s, b + 2, Space);
    t1 := IfCondClose(s, b, ok);
    CloserSound(s, t0, ok);
  }

  lemma IfCondComplete(s: string, b: nat, t0: nat, t1: nat, ok: nat -> bool)
    requires IfCondShape(s, b, t0, t1, ok)
    ensures IfCondOk(s, b, ok) && IfTilde(s, b) == t0 && IfCondClose(s, b, ok) == t1
  {
    SkipIs(s, b + 2, t0, Space);
    CloserComplete(s, t0, t1, ok);
  }

  /** The optional group of reChainHeader and the names after it, from `b`:
      `IF\s*~.*?~\s*THEN\s+([id]+)\s+([id]+)\s*$`. */
  ghost predicate ChainIfRest(s: string, b: nat, t0: nat, t1: nat,
                              c: nat, p1: nat, q1: nat, p2: nat, q2: nat) {
    IfCondShape(s, b, t0, t1, ChainTailTest(s)) && ChainTailShape(s, t1 + 1, c, p1, q1, p2, q2)
  }

  /** reChainHeader, `^\s*CHAIN\s+(?:IF\s*~.*?~\s*THEN\s+)?([id]+)\s+([id]+)\s*$`,
      with the optional group present. */
  ghost predicate ChainIfShape(s: string, a: nat, b: nat, t0: nat, t1: nat,
                               c: nat, p1: nat, q1: nat, p2: nat, q2: nat) {
    && a + 5 < b
    && AllIn(s, 0, a, Space) && KeywordAt(s, a, "CHAIN") && AllIn(s, a + 5, b, Space)
    && ChainIfRest(s, b, t0, t1, c, p1, q1, p2, q2)
  }

  /** reChainHeader without the optional group: the names are `s[p1..q1]`
      and `s[p2..q2]`. */
  ghost predicate ChainPlainShape(s: string, a: nat, p1: nat, q1: nat, p2: nat, q2: nat) {
    && a + 5 < p1
    && AllIn(s, 0, a, Space) && KeywordAt(s, a, "CHAIN") && AllIn(s, a + 5, p1, Space)
    && TwoIdsShape(s, p1, q1, p2, q2)
  }

  predicate ChainIfOk(s: string, b: nat)
    requires b <= |s|
  {
    IfCondOk(s, b, ChainTailTest(s))
  }

  function ChainIfNames(s: string, b: nat): (string, string)
    requires b <= |s| && ChainIfOk(s, b)
  {
    IfCondCloses(s, b, ChainTailTest(s));
    ChainTailNames(s, IfCondClose(s, b, ChainTailTest(s)) + 1)
  }

  lemma ChainIfSound(s: string, b: nat) returns (t0: nat, t1: nat, c: nat, p1: nat, q1: nat, p2: nat, q2: nat)
    requires b <= |s| && ChainIfOk(s, b)
    ensures ChainIfRest(s, b, t0, t1, c, p1, q1, p2, q2)
    ensures ChainIfNames(s, b) == (s[p1..q1], s[p2..q2])
  {
    t0, t1 := IfCondSound(s, b, ChainTailTest(s));
    c, p1, q1, p2, q2 := ChainTailSound(s, t1 + 1);
  }

  lemma ChainIfComplete(s: string, b: nat, t0: nat, t1: nat, c: nat, p1: nat, q1: nat, p2: nat, q2: nat)
    requires ChainIfRest(s, b, t0, t1, c, p1, q1, p2, q2)
    ensures ChainIfOk(s, b) && ChainIfNames(s, b) == (s[p1..q1], s[p2..q2])
  {
    IfCondComplete(s, b, t0, t1, ChainTailTest(s));
    ChainTailComplete(s, t1 + 1, c, p1, q1, p2, q2);
    ChainIfNamesAt(s, b, t1);
  }

  /** The names follow the closing tilde the search settles on. */
  lemma ChainIfNamesAt(s: string, b: nat, t1: nat)
    requires b <= |s| && ChainIfOk(s, b) && IfCondClose(s, b, ChainTailTest(s)) == t1
    ensures ChainTailOk(s, t1 + 1) && ChainIfNames(s, b) == ChainTailNames(s, t1 + 1)
  {
    IfCondCloses(s, b, ChainTailTest(s));
    ChainTailHolds(s, t1 + 1);
  }

  /** Where the names (or the optional group) start after `CHAIN\s+`. */
  function ChainStart(s: string): (b: nat)
    requires KeywordAt(s, Skip(s, 0, Space), "CHAIN")
    ensures b <= |s|
  {
    Skip(s, Skip(s, 0, Space) + 5, Space)
  }

  predicate ChainHeaderOk(s: string) {
    && KeywordAt(s, Skip(s, 0, Space), "CHAIN")
    && var b := ChainStart(s);
       b != Skip(s, 0, Space) + 5 && (ChainIfOk(s, b) || TwoIdsOk(s, b))
  }

  function ChainHeaderNames(s: string): (string, string)
    requires ChainHeaderOk(s)
  {
    var b := ChainStart(s);
    if ChainIfOk(s, b) then ChainIfNames(s, b) else TwoIds(s, b)
  }

  function MatchChainHeader(s: string): Option<(string, string)> {
    if ChainHeaderOk(s) then Some(ChainHeaderNames(s)) else None
  }

  /** A header with a condition has a tilde after `CHAIN`; one without has
      only names and blanks there, so at most one of the shapes applies. */
  lemma ChainShapesExclusive(s: string, a: nat, p1: nat, q1: nat, p2: nat, q2: nat,
                             a': nat, b: nat, t0: nat, t1: nat, c: nat, p1': nat, q1': nat, p2': nat, q2': nat)
    requires ChainPlainShape(s, a, p1, q1, p2, q2)
    ensures !ChainIfShape(s, a', b, t0, t1, c, p1', q1', p2', q2')
  {
    if ChainIfShape(s, a', b, t0, t1, c, p1', q1', p2', q2') {
      KeywordStart(s, a, "CHAIN");
      KeywordStart(s, a', "CHAIN");
      SkipIs(s, 0, a, Space);
      SkipIs(s, 0, a', Space);
      KeywordStart(s, b, "IF");
      AllInAt(s, p1, q1, Ident, p1);
      SkipIs(s, a + 5, b, Space);
      SkipIs(s, a + 5, p1, Space);
      TwoIdsRest(s, p1, q1, p2, q2, t0);
    }
  }

  /** A header the matcher accepts through the optional group has the
      conditional shape, with the names it returns. */
  lemma ChainHeaderIfSound(s: string)
    returns (a: nat, b: nat, t0: nat, t1: nat, c: nat, p1: nat, q1: nat, p2: nat, q2: nat)
    requires ChainHeaderOk(s) && ChainIfOk(s, ChainStart(s))
    ensures ChainIfShape(s, a, b, t0, t1, c, p1, q1, p2, q2)
    ensures ChainHeaderNames(s) == (s[p1..q1], s[p2..q2])
  {
    a := Skip(s, 0, Space);
    b := ChainStart(s);
    SkipRun(s, 0, Space);
    SkipRun(s, a + 5, Space);
    t0, t1, c, p1, q1, p2, q2 := ChainIfSound(s, b);
  }

  /** A header the matcher accepts without the optional group has the plain
      shape, with the names it returns. */
  lemma ChainHeaderPlainSound(s: string) returns (a: nat, p1: nat, q1: nat, p2: nat, q2: nat)
    requires ChainHeaderOk(s) && !ChainIfOk(s, ChainStart(s))
    ensures ChainPlainShape(s, a, p1, q1, p2, q2)
    ensures ChainHeaderNames(s) == (s[p1..q1], s[p2..q2])
  {
    a := Skip(s, 0, Space);
    p1 := ChainStart(s);
    SkipRun(s, 0, Space);
    SkipRun(s, a + 5, Space);
    q1, p2, q2 := TwoIdsSound(s, p1);
  }

  lemma ChainHeaderIfComplete(s: string, a: nat, b: nat, t0: nat, t1: nat, c: nat, p1: nat, q1: nat, p2: nat, q2: nat)
    requires ChainIfShape(s, a, b, t0, t1, c, p1, q1, p2, q2)
    ensures ChainHeaderOk(s) && ChainHeaderNames(s) == (s[p1..q1], s[p2..q2])
  {
    KeywordStart(s, a, "CHAIN");
    SkipIs(s, 0, a, Space);
    KeywordStart(s, b, "IF");
    SkipIs(s, a + 5, b, Space);
    ChainIfComplete(s, b, t0, t1, c, p1, q1, p2, q2);
  }

  lemma ChainPlainComplete(s: string, a: nat, p1: nat, q1: nat, p2: nat, q2: nat)
    requires ChainPlainShape(s, a, p1, q1, p2, q2)
    ensures ChainHeaderOk(s) && ChainHeaderNames(s) == (s[p1..q1], s[p2..q2])
  {
    KeywordStart(s, a, "CHAIN");
    SkipIs(s, 0, a, Space);
    SkipIs(s, a + 5, p1, Space);
    if KeywordAt(s, p1, "IF") {
      var t0 := IfTilde(s, p1);
      if t0 < |s| {
        TwoIdsRest(s, p1, q1, p2, q2, t0);
      }
    }
    TwoIdsComplete(s, p1, q1, p2, q2);
  }

  /** reBeginState, `^\s*IF\s*(~.*?~|~~)\s*THEN\s*BEGIN\s+([id]+)\s*$`: the
      condition, tildes included, is `s[t0..t1+1]` and the state `s[p..q]`.
      The `~~` alternative is the lazy one with `.*?` empty, so it adds no
      lines. */
  ghost predicate BeginStateShape(s: string, a: nat, t0: nat, t1: nat, c: nat, d: nat, p: nat, q: nat) {
    && AllIn(s, 0, a, Space) && IfCondShape(s, a, t0, t1, StateTailTest(s))
    && StateTailShape(s, t1 + 1, c, d, p, q)
  }

  predicate BeginStateOk(s: string) {
    IfCondOk(s, Skip(s, 0, Space), StateTailTest(s))
  }

  /** The captures of reBeginState: the condition with its tildes, and the state. */
  datatype StateHeader = StateHeader(cond: string, state: string)

  function BeginStateCaptures(s: string): StateHeader
    requires BeginStateOk(s)
  {
    var a := Skip(s, 0, Space);
    var t1 := IfCondClose(s, a, StateTailTest(s));
    IfCondCloses(s, a, StateTailTest(s));
    StateHeader(s[IfTilde(s, a)..t1 + 1], StateTailName(s, t1 + 1))
  }

  function MatchBeginState(s: string): Option<StateHeader> {
    if BeginStateOk(s) then Some(BeginStateCaptures(s)) else None
  }

  lemma BeginStateSound(s: string) returns (a: nat, t0: nat, t1: nat, c: nat, d: nat, p: nat, q: nat)
    requires BeginStateOk(s)
    ensures BeginStateShape(s, a, t0, t1, c, d, p, q)
    ensures BeginStateCaptures(s) == StateHeader(s[t0..t1 + 1], s[p..q])
  {
    a := Skip(s, 0, Space);
    SkipRun(s, 0, Space);
    t0, t1 := IfCondSound(s, a, StateTailTest(s));
    BeginStateCapturesAt(s, a, t1);
    c, d, p, q := StateTailSound(s, t1 + 1);
  }

  lemma BeginStateComplete(s: string, a: nat, t0: nat, t1: nat, c: nat, d: nat, p: nat, q: nat)
    requires BeginStateShape(s, a, t0, t1, c, d, p, q)
    ensures BeginStateOk(s) && BeginStateCaptures(s) == StateHeader(s[t0..t1 + 1], s[p..q])
  {
    KeywordStart(s, a, "IF");
    SkipIs(s, 0, a, Space);
    IfCondComplete(s, a, t0, t1, StateTailTest(s));
    StateTailComplete(s, t1 + 1, c, d, p, q);
    BeginStateCapturesAt(s, a, t1);
  }

  /** The state follows the closing tilde the search settles on. */
  lemma BeginStateCapturesAt(s: string, a: nat, t1: nat)
    requires a == Skip(s, 0, Space) && BeginStateOk(s) && IfCondClose(s, a, StateTailTest(s)) == t1
    ensures StateTailOk(s, t1 + 1)
    ensures BeginStateCaptures(s) == StateHeader(s[IfTilde(s, a)..t1 + 1], StateTailName(s, t1 + 1))
  {
    IfCondCloses(s, a, StateTailTest(s));
    StateTailHolds(s, t1 + 1);
  }

  /** reReply, `^\s*IF\s*(~.*?~|~~)\s*THEN\s*REPLY\s+@(\d+)\s*(.*)$`. */
  ghost predicate ReplyShape(s: string, a: nat, t0: nat, t1: nat, c: nat, d: nat, at: nat, e: nat, r: nat) {
    && AllIn(s, 0, a, Space) && IfCondShape(s, a, t0, t1, ReplyTailTest(s))
    && ReplyTailShape(s, t1 + 1, c, d, at, e, r)
  }

  predicate ReplyOk(s: string) {
    IfCondOk(s, Skip(s, 0, Space), ReplyTailTest(s))
  }

  /** The captures of reReply: the condition with its tildes, then the text
      id and the rest of the line after it. */
  datatype ReplyLine = ReplyLine(cond: string, tail: ReplyTail)

  function ReplyCaptures(s: string): ReplyLine
    requires ReplyOk(s)
  {
    var a := Skip(s, 0, Space);
    var t1 := IfCondClose(s, a, ReplyTailTest(s));
    IfCondCloses(s, a, ReplyTailTest(s));
    ReplyLine(s[IfTilde(s, a)..t1 + 1], ReplyTailCaptures(s, t1 + 1))
  }

  function MatchReply(s: string): Option<ReplyLine> {
    if ReplyOk(s) then Some(ReplyCaptures(s)) else None
  }

  lemma ReplySound(s: string) returns (a: nat, t0: nat, t1: nat, c: nat, d: nat, at: nat, e: nat, r: nat)
    requires ReplyOk(s)
    ensures ReplyShape(s, a, t0, t1, c, d, at, e, r)
    ensures ReplyCaptures(s) == ReplyLine(s[t0..t1 + 1], ReplyTail(NumberAt(s, at + 1, e), s[r..]))
  {
    a := Skip(s, 0, Space);
    SkipRun(s, 0, Space);
    t0, t1 := IfCondSound(s, a, ReplyTailTest(s));
    ReplyCapturesAt(s, a, t1);
    c, d, at, e, r := ReplyTailSound(s, t1 + 1);
  }

  lemma ReplyComplete(s: string, a: nat, t0: nat, t1: nat, c: nat, d: nat, at: nat, e: nat, r: nat)
    requires ReplyShape(s, a, t0, t1, c, d, at, e, r)
    ensures ReplyOk(s) && ReplyCaptures(s) == ReplyLine(s[t0..t1 + 1], ReplyTail(NumberAt(s, at + 1, e), s[r..]))
  {
    KeywordStart(s, a, "IF");
    SkipIs(s, 0, a, Space);
    IfCondComplete(s, a, t0, t1, ReplyTailTest(s));
    ReplyTailComplete(s, t1 + 1, c, d, at, e, r);
    ReplyCapturesAt(s, a, t1);
  }

  /** The id and the rest follow the closing tilde the search settles on. */
  lemma ReplyCapturesAt(s: string, a: nat, t1: nat)
    requires a == Skip(s, 0, Space) && ReplyOk(s) && IfCondClose(s, a, ReplyTailTest(s)) == t1
    ensures ReplyTailOk(s, t1 + 1)
    ensures ReplyCaptures(s) == ReplyLine(s[IfTilde(s, a)..t1 + 1], ReplyTailCaptures(s, t1 + 1))
  {
    IfCondCloses(s, a, ReplyTailTest(s));
    ReplyTailHolds(s, t1 + 1);
  }

  /** reSay, `^\s*SAY\s+@(\d+)\s*$`. */
  ghost predicate SayShape(s: string, a: nat, at: nat, e: nat) {
    && a + 3 < at
    && AllIn(s, 0, a, Space) && KeywordAt(s, a, "SAY") && AllIn(s, a + 3, at, Space)
    && AtNumberShape(s, at, e)
  }

  predicate SayOk(s: string) {
    var a := Skip(s, 0, Space);
    && KeywordAt(s, a, "SAY")
    && var at := Skip(s, a + 3, Space);
       at != a + 3 && AtNumberOk(s, at)
  }

  function SayId(s: string): nat
    requires SayOk(s)
  {
    AtNumber(s, Skip(s, Skip(s, 0, Space) + 3, Space))
  }

  function MatchSay(s: string): Option<nat> {
    if SayOk(s) then Some(SayId(s)) else None
  }

  lemma SaySound(s: string) returns (a: nat, at: nat, e: nat)
    requires SayOk(s)
    ensures SayShape(s, a, at, e) && SayId(s) == NumberAt(s, at + 1, e)
  {
    a := Skip(s, 0, Space);
    at := Skip(s, a + 3, Space);
    SkipRun(s, 0, Space);
    SkipRun(s, a + 3, Space);
    e := AtNumberSound(s, at);
  }

  lemma SayComplete(s: string, a: nat, at: nat, e: nat)
    requires SayShape(s, a, at, e)
    ensures SayOk(s) && SayId(s) == NumberAt(s, at + 1, e)
  {
    KeywordStart(s, a, "SAY");
    SkipIs(s, 0, a, Space);
    SkipIs(s, a + 3, at, Space);
    AtNumberComplete(s, at, e);
  }

  /** reChainLine, `^\s*@(\d+)\s*$` (no `(?i)`, and no letter to fold). */
  ghost predicate ChainLineShape(s: string, at: nat, e: nat) {
    AllIn(s, 0, at, Space) && AtNumberShape(s, at, e)
  }

  predicate ChainLineOk(s: string) {
    AtNumberOk(s, Skip(s, 0, Space))
  }

  function ChainLineId(s: string): nat
    requires ChainLineOk(s)
  {
    AtNumber(s, Skip(s, 0, Space))
  }

  function MatchChainLine(s: string): Option<nat> {
    if ChainLineOk(s) then Some(ChainLineId(s)) else None
  }

  lemma ChainLineSound(s: string) returns (at: nat, e: nat)
    requires ChainLineOk(s)
    ensures ChainLineShape(s, at, e) && ChainLineId(s) == NumberAt(s, at + 1, e)
  {
    at := Skip(s, 0, Space);
    SkipRun(s, 0, Space);
    e := AtNumberSound(s, at);
  }

  lemma ChainLineComplete(s: string, at: nat, e: nat)
    requires ChainLineShape(s, at, e)
    ensures ChainLineOk(s) && ChainLineId(s) == NumberAt(s, at + 1, e)
  {
    SkipIs(s, 0, at, Space);
    AtNumberComplete(s, at, e);
  }

  /** `^\s*==\s*([id]+)`, the speaker of both interjection patterns, is
      `s[p..q]`; `\s+` follows it in both, so the run ends at a blank. */
  ghost predicate SpeakerShape(s: string, a: nat, p: nat, q: nat) {
    && a + 2 <= p < q < |s|
    && AllIn(s, 0, a, Space) && s[a] == '=' && s[a + 1] == '='
    && AllIn(s, a + 2, p, Space) && AllIn(s, p, q, Ident) && IsRegexSpace(s[q])
  }

  predicate SpeakerOk(s: string) {
    var a := Skip(s, 0, Space);
    && a + 2 <= |s| && s[a] == '=' && s[a + 1] == '='
    && var p := Skip(s, a + 2, Space);
       Skip(s, p, Ident) != p
  }

  function SpeakerStart(s: string): (p: nat)
    requires SpeakerOk(s)
    ensures p <= |s|
  {
    Skip(s, Skip(s, 0, Space) + 2, Space)
  }

  function SpeakerEnd(s: string): (q: nat)
    requires SpeakerOk(s)
    ensures SpeakerStart(s) < q <= |s|
  {
    Skip(s, SpeakerStart(s), Ident)
  }

  lemma SpeakerSound(s: string) returns (a: nat)
    requires SpeakerOk(s) && SpeakerEnd(s) < |s| && IsRegexSpace(s[SpeakerEnd(s)])
    ensures SpeakerShape(s, a, SpeakerStart(s), SpeakerEnd(s))
  {
    a := Skip(s, 0, Space);
    SkipRun(s, 0, Space);
    SkipRun(s, a + 2, Space);
    SkipRun(s, SpeakerStart(s), Ident);
  }

  lemma SpeakerComplete(s: string, a: nat, p: nat, q: nat)
    requires SpeakerShape(s, a, p, q)
    ensures SpeakerOk(s) && SpeakerStart(s) == p && SpeakerEnd(s) == q
  {
    SkipIs(s, 0, a, Space);
    SkipIs(s, a + 2, p, Space);
    AllInAt(s, p, q, Ident, p);
    SkipIs(s, p, q, Ident);
  }

  /** reInterjectIf, `^\s*==\s*([id]+)\s+IF\s*~(.*?)~\s*THEN\s+@(\d+)\s*$`:
      the speaker is `s[p..q]` and the condition inside the tildes
      `s[t0+1..t1]`. */
  ghost predicate InterjectIfShape(s: string, a: nat, p: nat, q: nat, b: nat, t0: nat, t1: nat,
                                   c: nat, at: nat, e: nat) {
    && q < b && SpeakerShape(s, a, p, q) && AllIn(s, q, b, Space)
    && IfCondShape(s, b, t0, t1, InterjectTailTest(s)) && InterjectTailShape(s, t1 + 1, c, at, e)
  }

  predicate InterjectIfOk(s: string) {
    && SpeakerOk(s)
    && var q := SpeakerEnd(s);
       var b := Skip(s, q, Space);
       b != q && IfCondOk(s, b, InterjectTailTest(s))
  }

  /** The captures of reInterjectIf: speaker, condition inside the tildes, text id. */
  datatype InterjectIfLine = InterjectIfLine(speaker: string, cond: string, id: nat)

  function InterjectIfCaptures(s: string): InterjectIfLine
    requires InterjectIfOk(s)
  {
    var q := SpeakerEnd(s);
    var b := Skip(s, q, Space);
    var t1 := IfCondClose(s, b, InterjectTailTest(s));
    IfCondCloses(s, b, InterjectTailTest(s));
    InterjectIfLine(s[SpeakerStart(s)..q], s[IfTilde(s, b) + 1..t1], InterjectTailId(s, t1 + 1))
  }

  function MatchInterjectIf(s: string): Option<InterjectIfLine> {
    if InterjectIfOk(s) then Some(InterjectIfCaptures(s)) else None
  }

  lemma InterjectIfSound(s: string)
    returns (a: nat, p: nat, q: nat, b: nat, t0: nat, t1: nat, c: nat, at: nat, e: nat)
    requires InterjectIfOk(s)
    ensures InterjectIfShape(s, a, p, q, b, t0, t1, c, at, e)
    ensures InterjectIfCaptures(s) == InterjectIfLine(s[p..q], s[t0 + 1..t1], NumberAt(s, at + 1, e))
  {
    p, q := SpeakerStart(s), SpeakerEnd(s);
    b := Skip(s, q, Space);
    a := SpeakerSound(s);
    SkipRun(s, q, Space);
    t0, t1 := IfCondSound(s, b, InterjectTailTest(s));
    InterjectIfCapturesAt(s, b, t1);
    c, at, e := InterjectTailSound(s, t1 + 1);
  }

  lemma InterjectIfComplete(s: string, a: nat, p: nat, q: nat, b: nat, t0: nat, t1: nat,
                            c: nat, at: nat, e: nat)
    requires InterjectIfShape(s, a, p, q, b, t0, t1, c, at, e)
    ensures InterjectIfOk(s)
    ensures InterjectIfCaptures(s) == InterjectIfLine(s[p..q], s[t0 + 1..t1], NumberAt(s, at + 1, e))
  {
    SpeakerComplete(s, a, p, q);
    KeywordStart(s, b, "IF");
    SkipIs(s, q, b, Space);
    IfCondComplete(s, b, t0, t1, InterjectTailTest(s));
    InterjectTailComplete(s, t1 + 1, c, at, e);
    InterjectIfCapturesAt(s, b, t1);
  }

  /** The id follows the closing tilde the search settles on. */
  lemma InterjectIfCapturesAt(s: string, b: nat, t1: nat)
    requires InterjectIfOk(s) && b == Skip(s, SpeakerEnd(s), Space)
    requires IfCondClose(s, b, InterjectTailTest(s)) == t1
    ensures InterjectTailOk(s, t1 + 1)
    ensures InterjectIfCaptures(s)
            == InterjectIfLine(s[SpeakerStart(s)..SpeakerEnd(s)], s[IfTilde(s, b) + 1..t1], InterjectTailId(s, t1 + 1))
  {
    IfCondCloses(s, b, InterjectTailTest(s));
    InterjectTailHolds(s, t1 + 1);
  }

  /** reInterject, `^\s*==\s*([id]+)\s+@(\d+)\s*$`. */
  ghost predicate InterjectShape(s: string, a: nat, p: nat, q: nat, at: nat, e: nat) {
    && q < at && SpeakerShape(s, a, p, q) && AllIn(s, q, at, Space) && AtNumberShape(s, at, e)
  }

  predicate InterjectOk(s: string) {
    && SpeakerOk(s)
    && var q := SpeakerEnd(s);
       var at := Skip(s, q, Space);
       at != q && AtNumberOk(s, at)
  }

  function InterjectCaptures(s: string): (string, nat)
    requires InterjectOk(s)
  {
    var q := SpeakerEnd(s);
    (s[SpeakerStart(s)..q], AtNumber(s, Skip(s, q, Space)))
  }

  function MatchInterject(s: string): Option<(string, nat)> {
    if InterjectOk(s) then Some(InterjectCaptures(s)) else None
  }

  lemma InterjectSound(s: string) returns (a: nat, p: nat, q: nat, at: nat, e: nat)
    requires InterjectOk(s)
    ensures InterjectShape(s, a, p, q, at, e)
    ensures InterjectCaptures(s) == (s[p..q], NumberAt(s, at + 1, e))
  {
    p, q := SpeakerStart(s), SpeakerEnd(s);
    at := Skip(s, q, Space);
    a := SpeakerSound(s);
    SkipRun(s, q, Space);
    e := AtNumberSound(s, at);
  }

  lemma InterjectComplete(s: string, a: nat, p: nat, q: nat, at: nat, e: nat)
    requires InterjectShape(s, a, p, q, at, e)
    ensures InterjectOk(s) && InterjectCaptures(s) == (s[p..q], NumberAt(s, at + 1, e))
  {
    SpeakerComplete(s, a, p, q);
    SkipIs(s, q, at, Space);
    AtNumberComplete(s, at, e);
  }

  // ---------------------------------------------------------------------------
  // The unanchored patterns that look for a transition in a reply's rest or
  // a chain line: the leftmost place where the pattern matches.

  /** No `\b` at any position of `lo..hi`. */
  predicate NoBoundary(s: string, lo: nat, hi: nat)
    decreases hi - lo
  {
    lo >= hi || (lo <= |s| && !Boundary(s, lo) && NoBoundary(s, lo + 1, hi))
  }

  /** The last `\b` in `lo+1..hi`: where a greedy `[id]+\b` starting at `lo`,
      whose run of identifier characters ends at `hi`, gives back to. */
  function LastBoundary(s: string, lo: nat, hi: nat): (r: Option<nat>)
    requires lo <= hi <= |s|
    ensures r.Some? ==> lo < r.value <= hi
    decreases hi - lo
  {
    if hi == lo then None
    else if Boundary(s, hi) then Some(hi)
    else LastBoundary(s, lo, hi - 1)
  }

  lemma {:induction false} LastBoundaryFinds(s: string, lo: nat, hi: nat)
    requires lo <= hi <= |s| && LastBoundary(s, lo, hi).Some?
    ensures var e := LastBoundary(s, lo, hi).value;
            Boundary(s, e) && NoBoundary(s, e + 1, hi + 1)
    decreases hi - lo
  {
    if !Boundary(s, hi) {
      LastBoundaryFinds(s, lo, hi - 1);
      NoBoundaryGrows(s, LastBoundary(s, lo, hi).value + 1, hi);
    }
  }

  lemma {:induction false} LastBoundaryNone(s: string, lo: nat, hi: nat)
    requires lo <= hi <= |s| && LastBoundary(s, lo, hi).None?
    ensures NoBoundary(s, lo + 1, hi + 1)
    decreases hi - lo
  {
    if hi > lo {
      LastBoundaryNone(s, lo, hi - 1);
      NoBoundaryGrows(s, lo + 1, hi);
    }
  }

  lemma {:induction false} LastBoundaryReaches(s: string, lo: nat, e: nat, hi: nat)
    requires lo < e <= hi <= |s| && Boundary(s, e) && NoBoundary(s, e + 1, hi + 1)
    ensures LastBoundary(s, lo, hi) == Some(e)
    decreases hi - e
  {
    if e < hi {
      NoBoundaryLast(s, e + 1, hi);
      NoBoundaryShrinks(s, e + 1, hi);
      LastBoundaryReaches(s, lo, e, hi - 1);
    }
  }

  /** A boundary-free range extends by one boundary-free position at the top. */
  lemma {:induction false} NoBoundaryGrows(s: string, lo: nat, hi: nat)
    requires lo <= hi <= |s| && NoBoundary(s, lo, hi) && !Boundary(s, hi)
    ensures NoBoundary(s, lo, hi + 1)
    decreases hi - lo
  {
    if lo < hi {
      NoBoundaryGrows(s, lo + 1, hi);
    }
  }

  lemma {:induction false} NoBoundaryLast(s: string, lo: nat, hi: nat)
    requires lo <= hi <= |s| && NoBoundary(s, lo, hi + 1)
    ensures !Boundary(s, hi)
    decreases hi - lo
  {
    if lo < hi {
      NoBoundaryLast(s, lo + 1, hi);
    }
  }

  lemma {:induction false} NoBoundaryShrinks(s: string, lo: nat, hi: nat)
    requires lo <= hi && NoBoundary(s, lo, hi + 1)
    ensures NoBoundary(s, lo, hi)
    decreases hi - lo
  {
    if lo < hi {
      NoBoundaryShrinks(s, lo + 1, hi);
    }
  }

  /** reExtern, `\bEXTERN\s+([id]+)\s+([id]+)\b`, matching at `i`: the dialog
      is `s[p1..q1]`; the state's run of identifier characters is `s[p2..q2]`
      and the greedy `+` gives back to the last `\b`, at `e`. */
  ghost predicate ExternShape(s: string, i: nat, p1: nat, q1: nat, p2: nat, e: nat, q2: nat) {
    && i + 6 < p1 < q1 < p2 < e <= q2 <= |s|
    && Boundary(s, i) && KeywordAt(s, i, "EXTERN") && AllIn(s, i + 6, p1, Space)
    && AllIn(s, p1, q1, Ident) && AllIn(s, q1, p2, Space)
    && AllIn(s, p2, q2, Ident) && (q2 == |s| || !IsIdChar(s[q2]))
    && Boundary(s, e) && NoBoundary(s, e + 1, q2 + 1)
  }

  /** The match of reExtern that starts at `i`, if there is one. */
  function ExternAt(s: string, i: nat): Option<(string, string)>
    requires i <= |s|
  {
    if !(Boundary(s, i) && KeywordAt(s, i, "EXTERN")) then None else
    var p1 := Skip(s, i + 6, Space);
    var q1 := Skip(s, p1, Ident);
    var p2 := Skip(s, q1, Space);
    var q2 := Skip(s, p2, Ident);
    if p1 == i + 6 || q1 == p1 || p2 == q1 then None else
    match LastBoundary(s, p2, q2)
    case None => None
    case Some(e) => Some((s[p1..q1], s[p2..e]))
  }

  lemma ExternAtSound(s: string, i: nat) returns (p1: nat, q1: nat, p2: nat, e: nat, q2: nat)
    requires i <= |s| && ExternAt(s, i).Some?
    ensures ExternShape(s, i, p1, q1, p2, e, q2) && ExternAt(s, i).value == (s[p1..q1], s[p2..e])
  {
    p1 := Skip(s, i + 6, Space);
    q1 := Skip(s, p1, Ident);
    p2 := Skip(s, q1, Space);
    q2 := Skip(s, p2, Ident);
    e := LastBoundary(s, p2, q2).value;
    SkipRun(s, i + 6, Space);
    SkipRun(s, p1, Ident);
    SkipRun(s, q1, Space);
    SkipRun(s, p2, Ident);
    LastBoundaryFinds(s, p2, q2);
  }

  lemma ExternAtComplete(s: string, i: nat, p1: nat, q1: nat, p2: nat, e: nat, q2: nat)
    requires ExternShape(s, i, p1, q1, p2, e, q2)
    ensures ExternAt(s, i) == Some((s[p1..q1], s[p2..e]))
  {
    AllInAt(s, p1, q1, Ident, p1);
    AllInAt(s, q1, p2, Space, q1);
    AllInAt(s, p2, q2, Ident, p2);
    SkipIs(s, i + 6, p1, Space);
    SkipIs(s, p1, q1, Ident);
    SkipIs(s, q1, p2, Space);
    SkipIs(s, p2, q2, Ident);
    LastBoundaryReaches(s, p2, e, q2);
  }

  /** No match of reExtern starts in `lo..hi`. */
  predicate NoExternIn(s: string, lo: nat, hi: nat)
    decreases hi - lo
  {
    lo >= hi || (lo <= |s| && ExternAt(s, lo).None? && NoExternIn(s, lo + 1, hi))
  }

  /** The leftmost match of reExtern at or after `i`. */
  function FindExtern(s: string, i: nat): Option<(string, string)>
    requires i <= |s|
    decreases |s| - i
  {
    if ExternAt(s, i).Some? then ExternAt(s, i)
    else if i == |s| then None
    else FindExtern(s, i + 1)
  }

  /** FindStringSubmatch of reExtern: the dialog and the state of the leftmost match. */
  function MatchExtern(s: string): Option<(string, string)> {
    FindExtern(s, 0)
  }

  lemma {:induction false} FindExternFinds(s: string, i: nat) returns (k: nat)
    requires i <= |s| && FindExtern(s, i).Some?
    ensures i <= k <= |s| && ExternAt(s, k) == FindExtern(s, i) && NoExternIn(s, i, k)
    decreases |s| - i
  {
    if ExternAt(s, i).Some? {
      k := i;
    } else {
      k := FindExternFinds(s, i + 1);
    }
  }

  lemma {:induction false} FindExternNone(s: string, i: nat)
    requires i <= |s|
    ensures FindExtern(s, i).None? <==> NoExternIn(s, i, |s| + 1)
    decreases |s| - i
  {
    if i < |s| {
      FindExternNone(s, i + 1);
    }
  }

  lemma {:induction false} FindExternReaches(s: string, i: nat, k: nat)
    requires i <= k <= |s| && ExternAt(s, k).Some? && NoExternIn(s, i, k)
    ensures FindExtern(s, i) == ExternAt(s, k)
    decreases k - i
  {
    if i < k {
      FindExternReaches(s, i + 1, k);
    }
  }

  /** reGoto, `\bGOTO\s+([id]+)\b`, matching at `i`: the state's run of
      identifier characters is `s[p..q]`, given back to the last `\b`, at `e`. */
  ghost predicate GotoShape(s: string, i: nat, p: nat, e: nat, q: nat) {
    && i + 4 < p < e <= q <= |s|
    && Boundary(s, i) && KeywordAt(s, i, "GOTO") && AllIn(s, i + 4, p, Space)
    && AllIn(s, p, q, Ident) && (q == |s| || !IsIdChar(s[q]))
    && Boundary(s, e) && NoBoundary(s, e + 1, q + 1)
  }

  /** The match of reGoto that starts at `i`, if there is one. */
  function GotoAt(s: string, i: nat): Option<string>
    requires i <= |s|
  {
    if !(Boundary(s, i) && KeywordAt(s, i, "GOTO")) then None else
    var p := Skip(s, i + 4, Space);
    if p == i + 4 then None else
    match LastBoundary(s, p, Skip(s, p, Ident))
    case None => None
    case Some(e) => Some(s[p..e])
  }

  lemma GotoAtSound(s: string, i: nat) returns (p: nat, e: nat, q: nat)
    requires i <= |s| && GotoAt(s, i).Some?
    ensures GotoShape(s, i, p, e, q) && GotoAt(s, i).value == s[p..e]
  {
    p := Skip(s, i + 4, Space);
    q := Skip(s, p, Ident);
    e := LastBoundary(s, p, q).value;
    SkipRun(s, i + 4, Space);
    SkipRun(s, p, Ident);
    LastBoundaryFinds(s, p, q);
  }

  lemma GotoAtComplete(s: string, i: nat, p: nat, e: nat, q: nat)
    requires GotoShape(s, i, p, e, q)
    ensures GotoAt(s, i) == Some(s[p..e])
  {
    AllInAt(s, p, q, Ident, p);
    SkipIs(s, i + 4, p, Space);
    SkipIs(s, p, q, Ident);
    LastBoundaryReaches(s, p, e, q);
  }

  /** No match of reGoto starts in `lo..hi`. */
  predicate NoGotoIn(s: string, lo: nat, hi: nat)
    decreases hi - lo
  {
    lo >= hi || (lo <= |s| && GotoAt(s, lo).None? && NoGotoIn(s, lo + 1, hi))
  }

  /** The leftmost match of reGoto at or after `i`. */
  function FindGoto(s: string, i: nat): Option<string>
    requires i <= |s|
    decreases |s| - i
  {
    if GotoAt(s, i).Some? then GotoAt(s, i)
    else if i == |s| then None
    else FindGoto(s, i + 1)
  }

  /** FindStringSubmatch of reGoto: the state of the leftmost match. */
  function MatchGoto(s: string): Option<string> {
    FindGoto(s, 0)
  }

  lemma {:induction false} FindGotoFinds(s: string, i: nat) returns (k: nat)
    requires i <= |s| && FindGoto(s, i).Some?
    ensures i <= k <= |s| && GotoAt(s, k) == FindGoto(s, i) && NoGotoIn(s, i, k)
    decreases |s| - i
  {
    if GotoAt(s, i).Some? {
      k := i;
    } else {
      k := FindGotoFinds(s, i + 1);
    }
  }

  lemma {:induction false} FindGotoNone(s: string, i: nat)
    requires i <= |s|
    ensures FindGoto(s, i).None? <==> NoGotoIn(s, i, |s| + 1)
    decreases |s| - i
  {
    if i < |s| {
      FindGotoNone(s, i + 1);
    }
  }

  lemma {:induction false} FindGotoReaches(s: string, i: nat, k: nat)
    requires i <= k <= |s| && GotoAt(s, k).Some? && NoGotoIn(s, i, k)
    ensures FindGoto(s, i) == GotoAt(s, k)
    decreases k - i
  {
    if i < k {
      FindGotoReaches(s, i + 1, k);
    }
  }

  /** reExit, `\bEXIT\b`, matching at `i`. */
  predicate ExitAt(s: string, i: nat)
    requires i <= |s|
  {
    Boundary(s, i) && KeywordAt(s, i, "EXIT") && Boundary(s, i + 4)
  }

  /** Whether reExit matches anywhere at or after `i`. */
  function FindExit(s: string, i: nat): (b: bool)
    requires i <= |s|
    ensures b <==> exists k :: i <= k <= |s| && ExitAt(s, k)
    decreases |s| - i
  {
    if ExitAt(s, i) then true
    else if i == |s| then false
    else FindExit(s, i + 1)
  }

  /** MatchString of reExit. */
  function MatchExit(s: string): bool {
    FindExit(s, 0)
  }
}
