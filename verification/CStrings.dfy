/**
 The C string functions the tables are searched and filled with, after sections 7.24.4.4
 (`strncmp`) and 7.24.2.4 (`strncpy`) of ISO/IEC 9899:2011.

 A block of memory is a sequence of characters; a C string `s` lives in memory as `Mem(s)`.
 */
module CStrings {

  const NUL: char := '\0'

  predicate CStr(s: string) {
    NUL !in s
  }

  function Mem(s: string): seq<char> {
    s + [NUL]
  }

  /** The first `n` characters of `s`, or all of it when it is shorter. */
  function Take(s: string, n: nat): (t: string)
    ensures |t| <= n && t <= s
    ensures |s| <= n ==> t == s
    ensures |t| < n ==> t == s
  {
    if |s| <= n then s else s[..n]
  }

  /** Scanning at most `n` characters, or up to a terminator, stays inside `m`. */
  predicate Readable(m: seq<char>, n: nat) {
    n <= |m| || NUL in m
  }

  /** `strncmp(a, b, n) == 0`. */
  predicate StrNEq(a: seq<char>, b: seq<char>, n: nat)
    requires Readable(a, n) && Readable(b, n)
    decreases |a|
  {
    n == 0 || (a[0] == b[0] && (a[0] == NUL || StrNEq(a[1..], b[1..], n - 1)))
  }

  /** What `strncpy(dst, src, n)` leaves in the first `n` characters of `dst`. */
  function StrNCpy(src: seq<char>, n: nat): (dst: seq<char>)
    requires Readable(src, n)
    ensures |dst| == n
    decreases |src|
  {
    if n == 0 then []
    else if src[0] == NUL then seq(n, _ => NUL)
    else [src[0]] + StrNCpy(src[1..], n - 1)
  }

  /** The characters before the first terminator, at most `n` of them. */
  function Visible(m: seq<char>, n: nat): (t: string)
    requires Readable(m, n)
    ensures |t| <= n
    decreases |m|
  {
    if n == 0 || m[0] == NUL then [] else [m[0]] + Visible(m[1..], n - 1)
  }

  lemma {:induction false} StrNEqVisible(a: seq<char>, b: seq<char>, n: nat)
    requires Readable(a, n) && Readable(b, n)
    ensures StrNEq(a, b, n) <==> Visible(a, n) == Visible(b, n)
    decreases n
  {
    if n > 0 && a[0] == b[0] && a[0] != NUL {
      StrNEqVisible(a[1..], b[1..], n - 1);
      assert Visible(a, n)[1..] == Visible(a[1..], n - 1);
      assert Visible(b, n)[1..] == Visible(b[1..], n - 1);
    } else if n > 0 && a[0] != b[0] {
      assert Visible(a, n) != [] ==> Visible(a, n)[0] == a[0];
      assert Visible(b, n) != [] ==> Visible(b, n)[0] == b[0];
    }
  }

  lemma TakeFirst(s: string, n: nat)
    requires n > 0 && s != []
    ensures Take(s, n) == [s[0]] + Take(s[1..], n - 1)
  {
  }

  lemma {:induction false} VisibleMem(s: string, n: nat)
    requires CStr(s)
    ensures Readable(Mem(s), n) && Visible(Mem(s), n) == Take(s, n)
    decreases n
  {
    assert Mem(s)[|s|] == NUL;
    if n > 0 && s != [] {
      var rest := s[1..];
      VisibleMem(rest, n - 1);
      assert Mem(s)[1..] == Mem(rest);
      assert Visible(Mem(s), n) == [s[0]] + Take(rest, n - 1);
      TakeFirst(s, n);
    }
  }

  lemma {:induction false} VisibleCpy(m: seq<char>, n: nat)
    requires Readable(m, n)
    ensures Visible(StrNCpy(m, n), n) == Visible(m, n)
    decreases n
  {
    if n > 0 && m[0] != NUL {
      VisibleCpy(m[1..], n - 1);
      assert StrNCpy(m, n)[1..] == StrNCpy(m[1..], n - 1);
    }
  }

  /**
   Comparing a C string with a fixed-size buffer that `strncpy` filled from another one: the two
   compare equal exactly when the strings agree on the first `n` characters, even when the buffer
   holds no terminator.
   */
  lemma BufferCompare(a: string, b: string, n: nat)
    requires CStr(a) && CStr(b)
    ensures Readable(Mem(a), n) && Readable(Mem(b), n)
    ensures StrNEq(Mem(a), StrNCpy(Mem(b), n), n) <==> Take(a, n) == Take(b, n)
  {
    VisibleMem(a, n);
    VisibleMem(b, n);
    VisibleCpy(Mem(b), n);
    StrNEqVisible(Mem(a), StrNCpy(Mem(b), n), n);
  }

  /** A comparison limited to the length of one string tests whether it is a prefix of the other. */
  lemma PrefixCompare(a: string, b: string)
    requires CStr(a) && CStr(b)
    ensures Readable(Mem(a), |a|) && Readable(Mem(b), |a|)
    ensures StrNEq(Mem(a), Mem(b), |a|) <==> a <= b
    ensures StrNEq(Mem(b), Mem(a), |a|) <==> a <= b
  {
    VisibleMem(a, |a|);
    VisibleMem(b, |a|);
    StrNEqVisible(Mem(a), Mem(b), |a|);
    StrNEqVisible(Mem(b), Mem(a), |a|);
  }

  /** A buffer filled by `strncpy` reads back as the string, cut to the size of the buffer. */
  lemma BufferReads(s: string, n: nat)
    requires CStr(s)
    ensures Readable(Mem(s), n) && Visible(StrNCpy(Mem(s), n), n) == Take(s, n)
  {
    VisibleMem(s, n);
    VisibleCpy(Mem(s), n);
  }
}
