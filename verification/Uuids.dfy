/** The loop of GenerateUser that erases the dashes of a UUID in text form. */
module Uuids {

  function WithoutDashes(s: string): string {
    if s == [] then []
    else (if s[0] == '-' then [] else [s[0]]) + WithoutDashes(s[1..])
  }

  /** std::string::find('-'): the first position, or -1 (npos) when there is none. */
  method Find(s: string) returns (idx: int)
    ensures -1 <= idx < |s|
    ensures idx >= 0 ==> s[idx] == '-' && '-' !in s[..idx]
    ensures idx == -1 ==> '-' !in s
  {
    idx := 0;
    while idx < |s|
      invariant 0 <= idx <= |s| && '-' !in s[..idx]
    {
      if s[idx] == '-' {
        return;
      }
      idx := idx + 1;
    }
    idx := -1;
  }

  lemma {:induction false} EraseOne(s: string, i: nat)
    requires i < |s| && s[i] == '-'
    ensures WithoutDashes(s[..i] + s[i + 1..]) == WithoutDashes(s)
  {
    if i == 0 {
      assert s[..0] + s[1..] == s[1..];
    } else {
      EraseOne(s[1..], i - 1);
      assert (s[..i] + s[i + 1..])[1..] == s[1..][..i - 1] + s[1..][i..];
    }
  }

  lemma {:induction false} NothingToErase(s: string)
    requires '-' !in s
    ensures WithoutDashes(s) == s
  {
    if s == [] {
    } else {
      NothingToErase(s[1..]);
      assert s == [s[0]] + s[1..];
    }
  }

  /** Each round erases one dash; the loop ends with exactly the dashes gone. */
  method StripDashes(s: string) returns (id: string)
    ensures id == WithoutDashes(s)
  {
    id := s;
    var idx := Find(id);
    while idx != -1
      invariant WithoutDashes(id) == WithoutDashes(s)
      invariant -1 <= idx < |id|
      invariant idx >= 0 ==> id[idx] == '-'
      invariant idx == -1 ==> '-' !in id
      decreases |id|, idx
    {
      EraseOne(id, idx);
      id := id[..idx] + id[idx + 1..];
      idx := Find(id);
    }
    NothingToErase(id);
  }

  /** What the filter keeps: every other character, as often as before, and no dash. */
  lemma {:induction false} OnlyDashesGo(s: string, c: char)
    ensures multiset(WithoutDashes(s))[c] == if c == '-' then 0 else multiset(s)[c]
  {
    if s == [] {
    } else {
      OnlyDashesGo(s[1..], c);
      assert s == [s[0]] + s[1..];
    }
  }

  // ---- Canonical text form: 8-4-4-4-12 characters, section 4 of RFC 9562 ----

  predicate IsDashAt(i: int) {
    i == 8 || i == 13 || i == 18 || i == 23
  }

  predicate IsHex(c: char) {
    '0' <= c <= '9' || 'a' <= c <= 'f' || 'A' <= c <= 'F'
  }

  predicate Canonical(s: string) {
    |s| == 36 && forall i :: 0 <= i < 36 ==> if IsDashAt(i) then s[i] == '-' else IsHex(s[i])
  }

  /** Puts the dashes back. */
  function WithDashes(t: string): string
    requires |t| == 32
  {
    t[..8] + "-" + t[8..12] + "-" + t[12..16] + "-" + t[16..20] + "-" + t[20..]
  }

  lemma {:induction false} StripParts(a: string, b: string)
    ensures WithoutDashes(a + b) == WithoutDashes(a) + WithoutDashes(b)
  {
    if a == [] {
      assert a + b == b;
    } else {
      var rest := a[1..] + b;
      assert (a + b)[0] == a[0] && (a + b)[1..] == rest;
      StripParts(a[1..], b);
      var head := if a[0] == '-' then [] else [a[0]];
      assert WithoutDashes(a + b) == head + (WithoutDashes(a[1..]) + WithoutDashes(b));
    }
  }

  /** A group of hexadecimal digits followed by one dash and the rest. */
  lemma StripGroup(a: string, b: string)
    requires '-' !in a
    ensures WithoutDashes(a + ("-" + b)) == a + WithoutDashes(b)
  {
    StripParts(a, "-" + b);
    NothingToErase(a);
    assert ("-" + b)[1..] == b;
  }

  lemma FiveGroups(a: string, b: string, c: string, d: string, e: string)
    requires '-' !in a && '-' !in b && '-' !in c && '-' !in d && '-' !in e
    ensures WithoutDashes(a + ("-" + (b + ("-" + (c + ("-" + (d + ("-" + e)))))))) ==
      a + (b + (c + (d + e)))
  {
    StripGroup(a, b + ("-" + (c + ("-" + (d + ("-" + e))))));
    StripGroup(b, c + ("-" + (d + ("-" + e))));
    StripGroup(c, d + ("-" + e));
    StripGroup(d, e);
    NothingToErase(e);
  }

  lemma DashAt(s: string, i: nat, n: nat)
    requires Canonical(s) && IsDashAt(i) && i < n <= 36
    requires forall k :: i < k < n ==> !IsDashAt(k)
    ensures s[i..] == "-" + (s[i + 1..n] + s[n..])
    ensures '-' !in s[i + 1..n]
  {
    assert s[i] == '-';
  }

  /** On canonical UUIDs stripping is invertible, so no two of them collide. */
  lemma CanonicalRoundTrip(s: string)
    requires Canonical(s)
    ensures |WithoutDashes(s)| == 32 && WithDashes(WithoutDashes(s)) == s
  {
    var a, b, c, d, e := s[..8], s[9..13], s[14..18], s[19..23], s[24..36];
    DashAt(s, 8, 13);
    DashAt(s, 13, 18);
    DashAt(s, 18, 23);
    DashAt(s, 23, 36);
    assert s == a + s[8..] && e + s[36..] == e;
    FiveGroups(a, b, c, d, e);
    Groups(a, b, c, d, e);
  }

  lemma Groups(a: string, b: string, c: string, d: string, e: string)
    requires |a| == 8 && |b| == |c| == |d| == 4 && |e| == 12
    ensures var t := a + (b + (c + (d + e)));
      |t| == 32 && WithDashes(t) == a + ("-" + (b + ("-" + (c + ("-" + (d + ("-" + e)))))))
  {
    var t := a + (b + (c + (d + e)));
    assert t[..8] == a && t[8..12] == b && t[12..16] == c && t[16..20] == d && t[20..] == e;
  }

  lemma StripIsInjective(s: string, s': string)
    requires Canonical(s) && Canonical(s')
    ensures WithoutDashes(s) == WithoutDashes(s') ==> s == s'
  {
    CanonicalRoundTrip(s);
    CanonicalRoundTrip(s');
  }
}
