/**
 * NUL-terminated character buffers and the three C library routines that
 * `Exception::set_location` fills them with: `strlen`, `strcpy` and `strcat`.
 * A `const char*` argument is given by its characters (a `string` without
 * a NUL); a buffer the code writes into is an `array<char>`.
 */
module CStrings {

  /** The characters of a C string: no NUL among them. */
  predicate IsCString(s: string)
  {
    forall i :: 0 <= i < |s| ==> s[i] != '\0'
  }

  /** Where the first NUL of `s` stands. */
  function FirstNul(s: seq<char>): (n: nat)
    requires '\0' in s
    ensures n < |s| && s[n] == '\0'
    ensures IsCString(s[..n])
  {
    if s[0] == '\0' then 0
    else
      assert '\0' in s[1..] by {
        var k :| 0 <= k < |s| && s[k] == '\0';
        assert s[1..][k - 1] == '\0';
      }
      var m := FirstNul(s[1..]);
      assert s[..1 + m] == [s[0]] + s[1..][..m];
      1 + m
  }

  /** The C string a buffer holds: everything before its first NUL. */
  function CStr(s: seq<char>): (r: string)
    requires '\0' in s
    ensures IsCString(r) && |r| < |s|
    ensures s[|r|] == '\0'
  {
    s[..FirstNul(s)]
  }

  /** A buffer that holds its C string with exactly one place left, the terminator's. */
  predicate Exact(a: array<char>)
    reads a
  {
    '\0' in a[..] && FirstNul(a[..]) == a.Length - 1
  }

  /** `strlen`: count the characters before the terminator. */
  method StrLen(a: array<char>) returns (n: nat)
    requires '\0' in a[..]
    ensures n == |CStr(a[..])|
  {
    n := 0;
    while a[n] != '\0'
      invariant n <= FirstNul(a[..])
      decreases FirstNul(a[..]) - n
    {
      n := n + 1;
    }
  }

  /** `strcpy`: write `src` and its terminator at the start of `dst`. */
  method StrCpy(dst: array<char>, src: string)
    requires IsCString(src) && |src| < dst.Length
    modifies dst
    ensures '\0' in dst[..] && CStr(dst[..]) == src
    ensures dst[|src| + 1..] == old(dst[|src| + 1..])
  {
    var i := 0;
    while i < |src|
      invariant 0 <= i <= |src|
      invariant dst[..i] == src[..i]
      invariant dst[i..] == old(dst[i..])
    {
      dst[i] := src[i];
      i := i + 1;
    }
    dst[i] := '\0';
    assert dst[..|src|] == src;
    CStrOfTerminated(dst[..], src);
  }

  /** `strcat`: write `src` and a terminator over the terminator of `dst`. */
  method StrCat(dst: array<char>, src: string)
    requires IsCString(src) && '\0' in dst[..]
    requires |CStr(dst[..])| + |src| < dst.Length
    modifies dst
    ensures '\0' in dst[..] && CStr(dst[..]) == old(CStr(dst[..])) + src
  {
    ghost var prefix := CStr(dst[..]);
    var n := StrLen(dst);
    var i := 0;
    while i < |src|
      invariant 0 <= i <= |src|
      invariant dst[..n] == prefix
      invariant dst[n..n + i] == src[..i]
    {
      dst[n + i] := src[i];
      i := i + 1;
    }
    dst[n + i] := '\0';
    assert dst[..n + |src|] == prefix + src;
    CStrOfTerminated(dst[..], prefix + src);
  }

  /** A buffer that starts with a C string and a NUL holds exactly that C string. */
  lemma CStrOfTerminated(s: seq<char>, c: string)
    requires IsCString(c) && |c| < |s| && s[..|c|] == c && s[|c|] == '\0'
    ensures '\0' in s && CStr(s) == c
  {
    var n := FirstNul(s);
    assert n == |c| by {
      if n < |c| {
        assert false;
      }
    }
  }
}
