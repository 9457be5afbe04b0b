/** internal/d/preprocessor.go: a comment splitter that remembers, from one
    line to the next, whether it is inside a block comment.  Each call
    splits one line into its code and its comment text; `~…~` literals
    protect `//` and slash-star on that line only.

    Go scans bytes; every byte the scanner tests is ASCII, and the bytes of
    a multi-byte character are never ASCII, so scanning characters instead
    gives the same two strings. */
module DPreprocessor {
  import opened Text

  /** The loop of Split from position `i` on, with the block and tilde
      flags and the code and comment gathered so far: the untrimmed code,
      the untrimmed comment and the block flag at the end of the line. */
  function Scan(raw: string, i: nat, inBlock: bool, inTilde: bool, out: string, cmt: string): (string, string, bool)
    requires i <= |raw|
    decreases |raw| - i
  {
    if i == |raw| then (out, cmt, inBlock)
    else
      var ch := raw[i];
      if inBlock then
        if ch == '*' && i + 1 < |raw| && raw[i + 1] == '/' then
          Scan(raw, i + 2, false, inTilde, out, Separated(cmt))
        else Scan(raw, i + 1, true, inTilde, out, cmt + [ch])
      else if ch == '~' then Scan(raw, i + 1, inBlock, !inTilde, out + [ch], cmt)
      else if !inTilde && ch == '/' && i + 1 < |raw| && raw[i + 1] == '/' then (out, cmt + raw[i + 2..], inBlock)
      else if !inTilde && ch == '/' && i + 1 < |raw| && raw[i + 1] == '*' then Scan(raw, i + 2, true, inTilde, out, cmt)
      else Scan(raw, i + 1, inBlock, inTilde, out + [ch], cmt)
  }

  /** The comment after a star-slash: one blank keeps the text of two comments
      apart, unless the comment is empty or already ends in a blank. */
  function Separated(cmt: string): (r: string)
    ensures |r| > 0 ==> r[|r| - 1] == ' ' || (r == cmt && cmt[|cmt| - 1] == ' ')
    ensures r == cmt || r == cmt + " "
  {
    if |cmt| > 0 && cmt[|cmt| - 1] != ' ' then cmt + " " else cmt
  }

  /** Split as a function of the line and the block flag before it: the
      trimmed code, the trimmed comment and the block flag after it.  The
      tilde flag always starts out false. */
  function SplitSpec(raw: string, inBlock: bool): (r: (string, string, bool))
    ensures Trimmed(r.0) && Trimmed(r.1)
    ensures raw == [] ==> r == ("", "", inBlock)
  {
    if raw == [] then ("", "", inBlock)
    else
      var s := Scan(raw, 0, inBlock, false, "", "");
      (TrimSpace(s.0), TrimSpace(s.1), s.2)
  }

  /** CommentSplitter: the block flag lives on between calls. */
  class CommentSplitter {
    var inBlockComment: bool

    constructor ()
      ensures !inBlockComment
    {
      inBlockComment := false;
    }

    /** Split one line; the new block flag is the one the scan ends with. */
    method Split(raw: string) returns (code: string, comment: string)
      modifies this
      ensures (code, comment, inBlockComment) == SplitSpec(raw, old(inBlockComment))
    {
      if raw == [] {
        return "", "";
      }
      var inTilde := false;
      var out: string := [];
      var cmt: string := [];
      var i := 0;
      while i < |raw|
        invariant i <= |raw|
        invariant Scan(raw, 0, old(inBlockComment), false, "", "") == Scan(raw, i, inBlockComment, inTilde, out, cmt)
        decreases |raw| - i
      {
        var ch := raw[i];
        if inBlockComment {
          if ch == '*' && i + 1 < |raw| && raw[i + 1] == '/' {
            inBlockComment := false;
            i := i + 1;
            if |cmt| > 0 && cmt[|cmt| - 1] != ' ' {
              cmt := cmt + [' '];
            }
            i := i + 1;
            continue;
          }
          cmt := cmt + [ch];
          i := i + 1;
          continue;
        }
        if ch == '~' {
          inTilde := !inTilde;
          out := out + [ch];
          i := i + 1;
          continue;
        }
        if !inTilde && ch == '/' && i + 1 < |raw| && raw[i + 1] == '/' {
          cmt := cmt + raw[i + 2..];
          break;
        }
        if !inTilde && ch == '/' && i + 1 < |raw| && raw[i + 1] == '*' {
          inBlockComment := true;
          i := i + 2;
          continue;
        }
        out := out + [ch];
        i := i + 1;
      }
      code := TrimSpace(out);
      comment := TrimSpace(cmt);
    }
  }

  // ---------------------------------------------------------------------------
  // Properties

  /** `a` is a subsequence of `b`. */
  predicate SubseqOf(a: string, b: string)
    decreases |b|
  {
    a == [] || (b != [] && ((a[0] == b[0] && SubseqOf(a[1..], b[1..])) || SubseqOf(a, b[1..])))
  }

  /** The scan only ever appends characters of the line to the code, in
      order. */
  lemma {:induction false} ScanCodeIsSubseq(raw: string, i: nat, inBlock: bool, inTilde: bool, out: string, cmt: string)
    requires i <= |raw|
    ensures var o := Scan(raw, i, inBlock, inTilde, out, cmt).0;
      |out| <= |o| && o[..|out|] == out && SubseqOf(o[|out|..], raw[i..])
    decreases |raw| - i
  {
    if i == |raw| {
    } else {
      var ch := raw[i];
      assert raw[i..][1..] == raw[i + 1..];
      if inBlock {
        if ch == '*' && i + 1 < |raw| && raw[i + 1] == '/' {
          ScanCodeIsSubseq(raw, i + 2, false, inTilde, out, Separated(cmt));
          SkipTwo(Scan(raw, i + 2, false, inTilde, out, Separated(cmt)).0[|out|..], raw, i);
        } else {
          ScanCodeIsSubseq(raw, i + 1, true, inTilde, out, cmt + [ch]);
        }
      } else if ch == '~' {
        ScanCodeIsSubseq(raw, i + 1, inBlock, !inTilde, out + [ch], cmt);
        TakeOne(Scan(raw, i + 1, inBlock, !inTilde, out + [ch], cmt).0, out, raw, i);
      } else if !inTilde && ch == '/' && i + 1 < |raw| && raw[i + 1] == '/' {
      } else if !inTilde && ch == '/' && i + 1 < |raw| && raw[i + 1] == '*' {
        ScanCodeIsSubseq(raw, i + 2, true, inTilde, out, cmt);
        SkipTwo(Scan(raw, i + 2, true, inTilde, out, cmt).0[|out|..], raw, i);
      } else {
        ScanCodeIsSubseq(raw, i + 1, inBlock, inTilde, out + [ch], cmt);
        TakeOne(Scan(raw, i + 1, inBlock, inTilde, out + [ch], cmt).0, out, raw, i);
      }
    }
  }

  lemma SkipTwo(w: string, raw: string, i: nat)
    requires i + 2 <= |raw| && SubseqOf(w, raw[i + 2..])
    ensures SubseqOf(w, raw[i..])
  {
    assert raw[i..][1..] == raw[i + 1..];
    assert raw[i + 1..][1..] == raw[i + 2..];
  }

  lemma TakeOne(o: string, out: string, raw: string, i: nat)
    requires i < |raw| && |out| + 1 <= |o| && o[..|out| + 1] == out + [raw[i]]
    requires SubseqOf(o[|out| + 1..], raw[i + 1..])
    ensures o[..|out|] == out && SubseqOf(o[|out|..], raw[i..])
  {
    assert o[..|out|] == (out + [raw[i]])[..|out|];
    assert o[|out|..][1..] == o[|out| + 1..];
    assert raw[i..][1..] == raw[i + 1..];
  }

  /** The code Split returns is the trimmed form of a subsequence of the line. */
  lemma SplitCodeFromLine(raw: string, inBlock: bool) returns (w: string)
    ensures SubseqOf(w, raw) && SplitSpec(raw, inBlock).0 == TrimSpace(w)
  {
    if raw == [] {
      w := [];
    } else {
      ScanCodeIsSubseq(raw, 0, inBlock, false, "", "");
      w := Scan(raw, 0, inBlock, false, "", "").0;
      assert w[0..] == w && raw[0..] == raw;
    }
  }

  /** A character the scan treats as plain text: no `~`, `/` or `*`. */
  predicate PlainChar(c: char) {
    c != '~' && c != '/' && c != '*'
  }

  /** Plain text outside a comment goes to the code unchanged. */
  lemma {:induction false} ScanPlain(raw: string, i: nat, j: nat, inTilde: bool, out: string, cmt: string)
    requires i <= j <= |raw| && forall k :: i <= k < j ==> PlainChar(raw[k])
    ensures Scan(raw, i, false, inTilde, out, cmt) == Scan(raw, j, false, inTilde, out + raw[i..j], cmt)
    decreases j - i
  {
    if i < j {
      assert PlainChar(raw[i]);
      assert Scan(raw, i, false, inTilde, out, cmt) == Scan(raw, i + 1, false, inTilde, out + [raw[i]], cmt);
      assert out + raw[i..j] == out + [raw[i]] + raw[i + 1..j];
      ScanPlain(raw, i + 1, j, inTilde, out + [raw[i]], cmt);
    } else {
      assert out + raw[i..j] == out;
    }
  }

  /** Text inside a block comment, up to a `*`, goes to the comment. */
  lemma {:induction false} ScanInBlock(raw: string, i: nat, j: nat, inTilde: bool, out: string, cmt: string)
    requires i <= j <= |raw| && forall k :: i <= k < j ==> raw[k] != '*'
    ensures Scan(raw, i, true, inTilde, out, cmt) == Scan(raw, j, true, inTilde, out, cmt + raw[i..j])
    decreases j - i
  {
    if i < j {
      assert Scan(raw, i, true, inTilde, out, cmt) == Scan(raw, i + 1, true, inTilde, out, cmt + [raw[i]]);
      assert cmt + raw[i..j] == cmt + [raw[i]] + raw[i + 1..j];
      ScanInBlock(raw, i + 1, j, inTilde, out, cmt + [raw[i]]);
    } else {
      assert cmt + raw[i..j] == cmt;
    }
  }

  /** Between tildes, every character but `~` goes to the code. */
  lemma {:induction false} ScanQuoted(raw: string, i: nat, j: nat, out: string)
    requires i <= j <= |raw| && forall k :: i <= k < j ==> raw[k] != '~'
    ensures Scan(raw, i, false, true, out, "") == Scan(raw, j, false, true, out + raw[i..j], "")
    decreases j - i
  {
    if i < j {
      assert Scan(raw, i, false, true, out, "") == Scan(raw, i + 1, false, true, out + [raw[i]], "");
      assert out + raw[i..j] == out + [raw[i]] + raw[i + 1..j];
      ScanQuoted(raw, i + 1, j, out + [raw[i]]);
    } else {
      assert out + raw[i..j] == out;
    }
  }

  /** Everything after a `//` that plain text leads up to is comment, and
      nothing after it reaches the code. */
  lemma LineCommentEndsCode(raw: string, n: nat)
    requires n + 1 < |raw| && raw[n] == '/' && raw[n + 1] == '/'
    requires forall k :: 0 <= k < n ==> PlainChar(raw[k])
    ensures SplitSpec(raw, false) == (TrimSpace(raw[..n]), TrimSpace(raw[n + 2..]), false)
  {
    ScanPlain(raw, 0, n, false, "", "");
    assert [] + raw[0..n] == raw[..n];
    assert [] + raw[n + 2..] == raw[n + 2..];
  }

  /** slash-star opens a block that the next line is still in, when it is not
      closed on this one. */
  lemma BlockCommentOpens(raw: string, n: nat)
    requires n + 1 < |raw| && raw[n] == '/' && raw[n + 1] == '*'
    requires forall k :: 0 <= k < n ==> PlainChar(raw[k])
    requires forall k :: n + 2 <= k < |raw| ==> raw[k] != '*'
    ensures SplitSpec(raw, false) == (TrimSpace(raw[..n]), TrimSpace(raw[n + 2..]), true)
  {
    ScanPlain(raw, 0, n, false, "", "");
    assert [] + raw[0..n] == raw[..n];
    assert Scan(raw, n, false, false, raw[..n], "") == Scan(raw, n + 2, true, false, raw[..n], "");
    ScanInBlock(raw, n + 2, |raw|, false, raw[..n], "");
    assert [] + raw[n + 2..|raw|] == raw[n + 2..];
    assert Scan(raw, |raw|, true, false, raw[..n], raw[n + 2..]) == (raw[..n], raw[n + 2..], true);
  }

  /** Inside an open block, a whole line without `*` is comment, and the
      block stays open. */
  lemma BlockCommentPersists(raw: string)
    requires forall k :: 0 <= k < |raw| ==> raw[k] != '*'
    ensures SplitSpec(raw, true) == ("", TrimSpace(raw), true)
  {
    if raw != [] {
      ScanInBlock(raw, 0, |raw|, false, "", "");
      assert [] + raw[0..|raw|] == raw;
    }
  }

  /** star-slash closes the block; plain text after it is code again. */
  lemma BlockCommentCloses(raw: string, n: nat)
    requires n + 1 < |raw| && raw[n] == '*' && raw[n + 1] == '/'
    requires forall k :: 0 <= k < n ==> raw[k] != '*'
    requires forall k :: n + 2 <= k < |raw| ==> PlainChar(raw[k])
    ensures SplitSpec(raw, true) == (TrimSpace(raw[n + 2..]), TrimSpace(Separated(raw[..n])), false)
  {
    ScanInBlock(raw, 0, n, false, "", "");
    assert [] + raw[0..n] == raw[..n];
    ScanPlain(raw, n + 2, |raw|, false, "", Separated(raw[..n]));
    assert [] + raw[n + 2..|raw|] == raw[n + 2..];
  }

  /** The blank added at star-slash keeps a block comment and a `//` comment
      right after it apart: for `/*x*/` followed by `//y` the comment is
      `x y`. */
  lemma CommentsStayApart(raw: string, n: nat)
    requires 2 <= n && n + 3 < |raw|
    requires raw[0] == '/' && raw[1] == '*' && raw[n] == '*' && raw[n + 1] == '/'
    requires raw[n + 2] == '/' && raw[n + 3] == '/'
    requires forall k :: 2 <= k < n ==> raw[k] != '*'
    requires n > 2 && raw[n - 1] != ' '
    ensures SplitSpec(raw, false) == ("", TrimSpace(raw[2..n] + " " + raw[n + 4..]), false)
  {
    ScanInBlock(raw, 2, n, false, "", "");
    assert [] + raw[2..n] == raw[2..n];
    assert Separated(raw[2..n]) == raw[2..n] + " ";
  }

  /** Between a pair of tildes, `//` and slash-star are text. */
  lemma QuotedMarkersAreCode(q: string)
    requires forall k :: 0 <= k < |q| ==> q[k] != '~'
    ensures SplitSpec("~" + q + "~", false) == ("~" + q + "~", "", false)
  {
    var raw := "~" + q + "~";
    var n := |q|;
    assert raw[0] == '~' && [] + ['~'] == "~";
    assert Scan(raw, 0, false, false, "", "") == Scan(raw, 1, false, true, "~", "");
    forall k | 1 <= k < n + 1 ensures raw[k] != '~' {
      assert raw[k] == q[k - 1];
    }
    ScanQuoted(raw, 1, n + 1, "~");
    assert raw[1..n + 1] == q;
    assert raw[n + 1] == '~';
    assert Scan(raw, n + 1, false, true, "~" + q, "") == Scan(raw, n + 2, false, false, raw, "");
    TrimmedFixed(raw);
  }
}
