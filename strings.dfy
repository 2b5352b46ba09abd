/**
 * The JavaScript string operations the handlers and the cache rely on:
 * truthiness of an optional string, `trim`, `startsWith`, `split` and the
 * image public-id expression `url.split("/").pop().split(".")[0]`.
 */
module Strings {
  import opened Wrappers

  /** ECMAScript WhiteSpace and LineTerminator code points, which `trim` removes. */
  predicate IsSpace(c: char) {
    || c == ' ' || c == '\t' || c == '\n' || c == '\r' || c == '\U{000B}' || c == '\U{000C}'
    || c == '\U{00A0}' || c == '\U{1680}' || ('\U{2000}' <= c <= '\U{200A}')
    || c == '\U{2028}' || c == '\U{2029}' || c == '\U{202F}' || c == '\U{205F}'
    || c == '\U{3000}' || c == '\U{FEFF}'
  }

  /** The string without its leading white space. */
  function TrimStart(s: string): (r: string)
    ensures |r| <= |s| && r == s[|s| - |r|..]
    ensures forall i :: 0 <= i < |s| - |r| ==> IsSpace(s[i])
    ensures r == [] || !IsSpace(r[0])
  {
    if s != [] && IsSpace(s[0]) then TrimStart(s[1..]) else s
  }

  /** The string without its trailing white space. */
  function TrimEnd(s: string): (r: string)
    ensures |r| <= |s| && r == s[..|r|]
    ensures forall i :: |r| <= i < |s| ==> IsSpace(s[i])
    ensures r == [] || !IsSpace(r[|r| - 1])
  {
    if s != [] && IsSpace(s[|s| - 1]) then TrimEnd(s[..|s| - 1]) else s
  }

  /**
   * `String.prototype.trim`: what is left once the white space at both ends
   * is gone; it neither starts nor ends with white space. `TrimIsInfix`
   * says where in the input it lies.
   */
  function Trim(s: string): (r: string)
    ensures |r| <= |s|
    ensures r == [] || (!IsSpace(r[0]) && !IsSpace(r[|r| - 1]))
  {
    var t := TrimStart(s);
    var r := TrimEnd(t);
    assert r == [] || r[0] == t[0];
    r
  }

  /** `trim()` keeps a contiguous part of the input and drops only white space around it. */
  lemma TrimIsInfix(s: string)
    ensures var k := |s| - |TrimStart(s)|;
            && k + |Trim(s)| <= |s|
            && Trim(s) == s[k..k + |Trim(s)|]
            && (forall i :: 0 <= i < k ==> IsSpace(s[i]))
            && (forall i :: k + |Trim(s)| <= i < |s| ==> IsSpace(s[i]))
  {
    var t := TrimStart(s);
    var r := TrimEnd(t);
    var k := |s| - |t|;
    assert t == s[k..];
    assert r == t[..|r|];
    forall i | k + |r| <= i < |s| ensures IsSpace(s[i]) {
      assert s[i] == t[i - k];
    }
  }

  /** A string of nothing but white space trims to "". */
  lemma AllSpaceTrimsEmpty(s: string)
    requires forall i :: 0 <= i < |s| ==> IsSpace(s[i])
    ensures Trim(s) == []
  {
  }

  /** A string that trims to "" is nothing but white space. */
  lemma TrimsEmptyAllSpace(s: string)
    requires Trim(s) == []
    ensures forall i :: 0 <= i < |s| ==> IsSpace(s[i])
  {
    var t := TrimStart(s);
    assert TrimEnd(t) == [];
    assert t == [];
  }

  /** A string trims to "" exactly when every character of it is white space. */
  lemma TrimEmptyIffAllSpace(s: string)
    ensures Trim(s) == [] <==> forall i :: 0 <= i < |s| ==> IsSpace(s[i])
  {
    if Trim(s) == [] {
      TrimsEmptyAllSpace(s);
    }
    if forall i :: 0 <= i < |s| ==> IsSpace(s[i]) {
      AllSpaceTrimsEmpty(s);
    }
  }

  /** `!x`: an optional string is falsy when absent or empty. */
  predicate Truthy(x: Option<string>): (b: bool)
    ensures b ==> x.Some?
    ensures x.Some? && |x.value| > 0 ==> b
    ensures x == Some([]) ==> !b
    ensures !b ==> Blank(x)
  {
    x.Some? && x.value != []
  }

  /**
   * `!x?.trim()`: absent, or nothing but white space. `BlankIsFalsyTrim`
   * proves this is the same as trimming to the empty string.
   */
  predicate Blank(x: Option<string>) {
    x.None? || forall i :: 0 <= i < |x.value| ==> IsSpace(x.value[i])
  }

  /** A value is blank exactly when it is absent or `trim()` leaves nothing of it. */
  lemma BlankIsFalsyTrim(x: Option<string>)
    ensures Blank(x) <==> x.None? || Trim(x.value) == []
  {
    if x.Some? {
      TrimEmptyIffAllSpace(x.value);
    }
  }

  /** `s.startsWith(prefix)`. */
  predicate StartsWith(s: string, prefix: string): (b: bool)
    ensures b <==> |prefix| <= |s| && forall i :: 0 <= i < |prefix| ==> s[i] == prefix[i]
  {
    |prefix| <= |s| && s[..|prefix|] == prefix
  }

  /** Every string starts with the empty prefix. */
  lemma StartsWithEmpty(s: string)
    ensures StartsWith(s, [])
  {
  }

  /** The inverse of `split`: the parts glued back with the separator between them. */
  function Join(parts: seq<string>, sep: char): string
    requires |parts| >= 1
    decreases |parts|
  {
    if |parts| == 1 then parts[0] else parts[0] + [sep] + Join(parts[1..], sep)
  }

  /** `s.split(sep)` for a one-character separator: never empty, parts free of `sep`, and `join` undoes it. */
  function Split(s: string, sep: char): (parts: seq<string>)
    ensures |parts| >= 1
    ensures forall i :: 0 <= i < |parts| ==> sep !in parts[i]
    ensures Join(parts, sep) == s
    decreases |s|
  {
    if s == [] then [[]]
    else
      var rest := Split(s[1..], sep);
      assert s == [s[0]] + s[1..];
      if s[0] == sep then
        assert ([[]] + rest)[1..] == rest;
        [[]] + rest
      else
        var parts := [[s[0]] + rest[0]] + rest[1..];
        assert parts[1..] == rest[1..];
        assert |rest| > 1 ==> Join(rest, sep) == rest[0] + [sep] + Join(rest[1..], sep);
        parts
  }

  /** The last part of a join follows the last separator. */
  lemma {:induction false} JoinLast(parts: seq<string>, sep: char)
    requires |parts| >= 2
    ensures Join(parts, sep) == Join(parts[..|parts| - 1], sep) + [sep] + parts[|parts| - 1]
    decreases |parts|
  {
    if |parts| > 2 {
      JoinLast(parts[1..], sep);
      assert parts[1..][..|parts| - 2] == parts[..|parts| - 1][1..];
      assert parts[1..][|parts| - 2] == parts[|parts| - 1];
    } else {
      assert parts[..1] == [parts[0]];
    }
  }

  /** `s.split(sep)[0]`: the longest prefix of `s` free of `sep`. */
  function FirstPart(s: string, sep: char): (r: string)
    ensures sep !in r
    ensures |r| <= |s| && r == s[..|r|]
    ensures |r| == |s| || s[|r|] == sep
  {
    var parts := Split(s, sep);
    assert |parts| > 1 ==> s == parts[0] + ([sep] + Join(parts[1..], sep));
    parts[0]
  }

  /** `s.split(sep).pop()`: the longest suffix of `s` free of `sep`. */
  function LastPart(s: string, sep: char): (r: string)
    ensures sep !in r
    ensures |r| <= |s| && r == s[|s| - |r|..]
    ensures |r| == |s| || s[|s| - |r| - 1] == sep
  {
    var parts := Split(s, sep);
    if |parts| == 1 then parts[0]
    else
      JoinLast(parts, sep);
      var head := Join(parts[..|parts| - 1], sep);
      assert s == (head + [sep]) + parts[|parts| - 1];
      assert s[|head|] == sep;
      parts[|parts| - 1]
  }

  /**
   * The public id of an uploaded image, as handed to the image store's
   * `destroy`: `url.split("/").pop().split(".")[0]`.
   */
  function ImageId(url: string): (r: string)
    ensures '/' !in r && '.' !in r
  {
    FirstPart(LastPart(url, '/'), '.')
  }

  /** Only one string satisfies the contract of `FirstPart`. */
  lemma FirstPartUnique(s: string, sep: char, r: string)
    requires sep !in r && |r| <= |s| && r == s[..|r|]
    requires |r| == |s| || s[|r|] == sep
    ensures r == FirstPart(s, sep)
  {
  }

  /** Only one string satisfies the contract of `LastPart`. */
  lemma LastPartUnique(s: string, sep: char, r: string)
    requires sep !in r && |r| <= |s| && r == s[|s| - |r|..]
    requires |r| == |s| || s[|s| - |r| - 1] == sep
    ensures r == LastPart(s, sep)
  {
  }

  /**
   * `ImageId` recovers the name of a file `dir/name.ext` whose name has no
   * `/` or `.` and whose extension has no `/`; a bare name is its own id.
   */
  lemma ImageIdOfPath(dir: string, name: string, ext: string)
    requires '/' !in name && '.' !in name && '/' !in ext
    ensures ImageId(dir + "/" + name + "." + ext) == name
    ensures ImageId(name) == name
  {
    var url := dir + "/" + name + "." + ext;
    var file := name + "." + ext;
    assert url == (dir + "/") + file;
    assert url[|url| - |file|..] == file;
    assert url[|url| - |file| - 1] == '/';
    LastPartUnique(url, '/', file);
    assert file[..|name|] == name && file[|name|] == '.';
    FirstPartUnique(file, '.', name);
    LastPartUnique(name, '/', name);
    FirstPartUnique(name, '.', name);
  }

  /** Example: "a/b/c.jpg" names the image "c". */
  lemma ImageIdExample(url: string)
    requires url == "a/b/c.jpg"
    ensures ImageId(url) == "c"
  {
    var file := "c.jpg";
    assert url[4..] == file && url[3] == '/';
    LastPartUnique(url, '/', file);
    assert file[..1] == "c" && file[1] == '.';
    FirstPartUnique(file, '.', "c");
  }
}
