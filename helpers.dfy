/** internal/utils/helpers.go: the key a parsed file is stored under, its
    name without the last extension. */
module Helpers {

  /** Start of the final path element: one past the last '/', or 0. */
  function ElementStart(f: string): (n: nat)
    ensures n <= |f| && (n > 0 ==> f[n - 1] == '/')
    ensures forall k :: n <= k < |f| ==> f[k] != '/'
  {
    if f == [] then 0
    else if f[|f| - 1] == '/' then |f|
    else ElementStart(f[..|f| - 1])
  }

  predicate NoDot(s: string) {
    forall k :: 0 <= k < |s| ==> s[k] != '.'
  }

  /** The loop of filepath.Ext (with '/' as the separator): scan `f[..i]`
      backwards, stop at a separator, answer the position of the first '.'. */
  function DotIndex(f: string, i: nat): (r: nat)
    requires i <= |f|
    ensures r <= i
    ensures r < i ==> f[r] == '.' && ElementStart(f[..i]) <= r
    ensures forall k :: r < k < i ==> f[k] != '.' && f[k] != '/'
    ensures r == i ==> forall k :: ElementStart(f[..i]) <= k < i ==> f[k] != '.'
  {
    if i == 0 then i
    else if f[i - 1] == '/' then
      assert ElementStart(f[..i]) == i;
      i
    else if f[i - 1] == '.' then
      assert ElementStart(f[..i]) == ElementStart(f[..i - 1]) by {
        assert f[..i][..i - 1] == f[..i - 1];
      }
      i - 1
    else
      var r := DotIndex(f, i - 1);
      assert f[..i][..i - 1] == f[..i - 1];
      if r == i - 1 then i else r
  }

  /** filepath.Ext: the suffix from the last '.' of the final element, or "". */
  function Ext(f: string): (e: string)
    ensures |e| <= |f| && e == f[|f| - |e|..]
    ensures e == [] || (e[0] == '.' && NoDot(e[1..]) && |f| - |e| >= ElementStart(f))
    ensures e == [] <==> NoDot(f[ElementStart(f)..])
  {
    assert f[..|f|] == f;
    var d := DotIndex(f, |f|);
    if d == |f| then [] else
      var e := f[d..];
      assert f[ElementStart(f)..][d - ElementStart(f)] == '.';
      e
  }

  /** helpers.BaseKey: strings.TrimSuffix(f, filepath.Ext(f)). */
  function BaseKey(f: string): (r: string)
    ensures r + Ext(f) == f
    ensures r <= f
    ensures |r| < |f| <==> Ext(f) != []
    ensures NoDot(f[ElementStart(f)..]) ==> r == f
  {
    f[..|f| - |Ext(f)|]
  }

  /** Only the last extension goes: a dot of the final element that has
      another dot after it survives in the key. */
  lemma BaseKeyKeepsEarlierDots(f: string, k: nat, j: nat)
    requires ElementStart(f) <= k < j < |f| && f[k] == '.' && f[j] == '.'
    ensures k < |BaseKey(f)| && BaseKey(f)[k] == '.'
  {
  }

  lemma BaseKeyExample()
    ensures BaseKey("x.d") == "x"
  {
    assert DotIndex("x.d", 3) == 1;
  }
}
