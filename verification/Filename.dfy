/** Names of rotated files: "logs/mylog.txt" rotates into "logs/mylog.1.txt", "logs/mylog.2.txt", ... */
module Filename {
  import opened Decimal

  /** The last position below n holding `c`, or -1. */
  function LastBelow(s: string, n: nat, c: char): (i: int)
    requires n <= |s|
    ensures -1 <= i < n
    ensures i >= 0 ==> s[i] == c
    ensures forall k :: i < k < n ==> s[k] != c
  {
    if n == 0 then -1
    else if s[n - 1] == c then n - 1
    else LastBelow(s, n - 1, c)
  }

  function RFind(s: string, c: char): int {
    LastBelow(s, |s|, c)
  }

  function SplitByExtension(name: string): (r: (string, string))
    ensures r.0 + r.1 == name
  {
    var ext := RFind(name, '.');
    var folder := RFind(name, '/');
    if ext == -1 || ext == 0 || ext == |name| - 1 then (name, "")
    else if folder != -1 && folder >= ext - 1 then (name, "")
    else (name[..ext], name[ext..])
  }

  /** An extension is a last dot with something behind it, and before it a name that is not empty and
      does not end in a folder separator; there is no separator behind it. */
  ghost predicate IsExtension(base: string, ext: string) {
    && |ext| >= 2 && ext[0] == '.' && (forall k :: 0 < k < |ext| ==> ext[k] != '.' && ext[k] != '/')
    && base != "" && base[|base| - 1] != '/'
  }

  /** The split finds the extension exactly when there is one. */
  lemma SplitIsExact(name: string, base: string, ext: string)
    requires name == base + ext && ext != ""
    ensures SplitByExtension(name) == (base, ext) <==> IsExtension(base, ext)
  {
    if IsExtension(base, ext) { ExtensionIsFound(name, base, ext); }
    if SplitByExtension(name) == (base, ext) { FoundIsExtension(name); }
  }

  lemma ExtensionIsFound(name: string, base: string, ext: string)
    requires name == base + ext && IsExtension(base, ext)
    ensures SplitByExtension(name) == (base, ext)
  {
    var n := |base|;
    assert forall k :: n < k < |name| ==> name[k] == ext[k - n];
    assert name[n - 1] == base[n - 1] && name[n] == ext[0];
    assert RFind(name, '.') == n;
    assert RFind(name, '/') < n - 1;
  }

  lemma FoundIsExtension(name: string)
    requires SplitByExtension(name).1 != ""
    ensures IsExtension(SplitByExtension(name).0, SplitByExtension(name).1)
  {
    var (base, ext) := SplitByExtension(name);
    var n := RFind(name, '.');
    assert base == name[..n] && ext == name[n..];
    assert forall k :: 0 <= k < |ext| ==> ext[k] == name[n + k];
    assert base[n - 1] == name[n - 1];
  }

  function CalcFilename(name: string, index: nat): (r: string)
  {
    if index == 0 then name
    else
      var (base, ext) := SplitByExtension(name);
      base + "." + Digits(index) + ext
  }

  /** Different indices have different names. */
  lemma NamesDiffer(name: string, i: nat, j: nat)
    ensures CalcFilename(name, i) == CalcFilename(name, j) <==> i == j
  {
    var (base, ext) := SplitByExtension(name);
    if i != j && i != 0 && j != 0 && CalcFilename(name, i) == CalcFilename(name, j) {
      var a, b := base + "." + Digits(i) + ext, base + "." + Digits(j) + ext;
      assert |Digits(i)| == |Digits(j)|;
      assert Digits(i) == a[|base| + 1..|base| + 1 + |Digits(i)|] == Digits(j);
      DigitsInjective(i, j);
    }
  }

  ghost predicate HasExtension(name: string) {
    exists n :: 0 <= n < |name| && IsExtension(name[..n], name[n..])
  }

  /** File k > 0 has its number, in decimal, before the extension, or at the end when there is none. */
  lemma NumberedName(name: string, k: nat)
    requires k > 0
    ensures forall n :: 0 <= n < |name| && IsExtension(name[..n], name[n..]) ==>
              CalcFilename(name, k) == name[..n] + "." + Digits(k) + name[n..]
    ensures !HasExtension(name) ==> CalcFilename(name, k) == name + "." + Digits(k)
    ensures CalcFilename(name, 0) == name
  {
    forall n | 0 <= n < |name| && IsExtension(name[..n], name[n..])
      ensures CalcFilename(name, k) == name[..n] + "." + Digits(k) + name[n..]
    {
      assert name == name[..n] + name[n..];
      SplitIsExact(name, name[..n], name[n..]);
    }
    var (base, ext) := SplitByExtension(name);
    if ext != "" {
      FoundIsExtension(name);
      assert base == name[..|base|] && ext == name[|base|..];
    } else {
      assert base + ext == base;
    }
  }
}
