/**
  Readability clean-up of demangled Rust symbols: every `::h` followed by
  sixteen lower-case hexadecimal digits (the symbol hash) is deleted, then six
  verbose standard-library paths are shortened, one replacement after the
  other. Invoking the external demangler is not part of this module.
*/
module RustDemangle {
  import opened TextUtil

  predicate IsLowerHex(c: char) {
    '0' <= c <= '9' || 'a' <= c <= 'f'
  }

  // ---------------------------------------------------------------------------
  // The hash pattern `::h[0-9a-f]{16}`
  // ---------------------------------------------------------------------------

  /** `t` is exactly one match of the hash pattern. */
  predicate IsHash(t: string) {
    && |t| == 19
    && t[0] == ':' && t[1] == ':' && t[2] == 'h'
    && forall k :: 3 <= k < 19 ==> IsLowerHex(t[k])
  }

  /** A match of the hash pattern starts at the head of `s`. */
  predicate HashAtHead(s: string) {
    |s| >= 19 && IsHash(s[..19])
  }

  /** A search for the hash pattern in `s` finds nothing. */
  predicate HashFree(s: string)
    decreases |s|
  {
    !HashAtHead(s) && (s == [] || HashFree(s[1..]))
  }

  /**
    Substitution of the empty string for every match, as `re.sub` does it:
    the scan goes left to right, and after a match it resumes behind it.
  */
  function RemoveHashes(s: string): (r: string)
    ensures |r| <= |s|
    decreases |s|
  {
    if s == [] then []
    else if HashAtHead(s) then RemoveHashes(s[19..])
    else [s[0]] + RemoveHashes(s[1..])
  }

  /** Text without a match comes back unchanged. */
  lemma {:induction false} RemoveHashesOfHashFree(s: string)
    requires HashFree(s)
    ensures RemoveHashes(s) == s
    decreases |s|
  {
    if s != [] {
      RemoveHashesOfHashFree(s[1..]);
    }
  }

  /** Text with a match comes back strictly shorter. */
  lemma {:induction false} RemoveHashesShrinks(s: string)
    requires !HashFree(s)
    ensures |RemoveHashes(s)| < |s|
    decreases |s|
  {
    if !HashAtHead(s) {
      RemoveHashesShrinks(s[1..]);
    }
  }

  /** Hash removal changes the text exactly when the pattern occurs in it. */
  lemma RemoveHashesFixedPoint(s: string)
    ensures RemoveHashes(s) == s <==> HashFree(s)
  {
    if HashFree(s) {
      RemoveHashesOfHashFree(s);
    } else {
      RemoveHashesShrinks(s);
    }
  }

  /** Text holding no `::h` cannot hold a match. */
  lemma {:induction false} HashFreeWithoutMarker(s: string)
    requires !Contains(s, "::h")
    ensures HashFree(s)
    decreases |s|
  {
    if s != [] {
      HashFreeWithoutMarker(s[1..]);
    }
  }

  /** Text shorter than a match cannot hold one. */
  lemma {:induction false} HashFreeShort(s: string)
    requires |s| < 19
    ensures HashFree(s)
    decreases |s|
  {
    if s != [] {
      HashFreeShort(s[1..]);
    }
  }

  /**
    A match can only begin at a colon followed by a colon and an `h`, and a
    match holds no colon after its third character; so no match begins in
    `a` and runs into a following match `h`.
  */
  lemma HeadBeforeHash(a: string, h: string, b: string)
    requires a != [] && IsHash(h)
    ensures HashAtHead(a + h + b) <==> HashAtHead(a)
  {
    var s := a + h + b;
    if |a| >= 19 {
      assert s[..19] == a[..19];
    } else if |a| >= 3 {
      assert s[|a|] == ':';
      assert !IsHash(s[..19]) by {
        assert s[..19][|a|] == ':';
      }
    } else if |a| == 2 {
      assert s[2] == ':';
    } else {
      assert s[2] == h[1];
    }
  }

  /**
    Every match is deleted, wherever it stands: removing hashes from text that
    has a match `h` between `a` and `b` is removing them from `a` and from `b`.
  */
  lemma {:induction false} DeletesEveryHash(a: string, h: string, b: string)
    requires IsHash(h)
    ensures RemoveHashes(a + h + b) == RemoveHashes(a) + RemoveHashes(b)
    decreases |a|
  {
    var s := a + h + b;
    if a == [] {
      assert s == h + b;
      assert s[..19] == h;
      assert s[19..] == b;
    } else {
      HeadBeforeHash(a, h, b);
      if HashAtHead(a) {
        assert s[19..] == a[19..] + h + b;
        DeletesEveryHash(a[19..], h, b);
      } else {
        assert s[1..] == a[1..] + h + b;
        DeletesEveryHash(a[1..], h, b);
      }
    }
  }

  /**
    Deleting one match can close a new one around it, so hash removal is not
    idempotent: for sixteen hex digits `d`, `::h::h<d><d>` loses the inner
    match and leaves `::h<d>`, which a second pass deletes.
  */
  lemma RemoveHashesNotIdempotent(d: string)
    requires |d| == 16 && forall k :: 0 <= k < 16 ==> IsLowerHex(d[k])
    ensures RemoveHashes("::h" + ("::h" + d) + d) == "::h" + d
    ensures RemoveHashes(RemoveHashes("::h" + ("::h" + d) + d)) == []
  {
    var h := "::h" + d;
    assert IsHash(h) by {
      forall k | 3 <= k < 19 ensures IsLowerHex(h[k]) {
        assert h[k] == d[k - 3];
      }
    }
    DeletesEveryHash("::h", h, d);
    HashFreeShort("::h");
    HashFreeShort(d);
    RemoveHashesOfHashFree("::h");
    RemoveHashesOfHashFree(d);
    DeletesEveryHash([], h, []);
    assert [] + h + [] == h;
  }

  // ---------------------------------------------------------------------------
  // `str.replace`
  // ---------------------------------------------------------------------------

  /** `s.replace(pat, rep)`: occurrences found from the left, without overlap. */
  function ReplaceAll(s: string, pat: string, rep: string): (r: string)
    requires pat != []
    ensures |rep| <= |pat| ==> |r| <= |s|
    decreases |s|
  {
    if pat <= s then rep + ReplaceAll(s[|pat|..], pat, rep)
    else if s == [] then []
    else [s[0]] + ReplaceAll(s[1..], pat, rep)
  }

  /** Text without an occurrence comes back unchanged. */
  lemma {:induction false} ReplaceAbsent(s: string, pat: string, rep: string)
    requires pat != [] && !Contains(s, pat)
    ensures ReplaceAll(s, pat, rep) == s
    decreases |s|
  {
    if s != [] {
      ReplaceAbsent(s[1..], pat, rep);
    }
  }

  /** With a shorter replacement, text with an occurrence comes back strictly shorter. */
  lemma {:induction false} ReplaceShrinks(s: string, pat: string, rep: string)
    requires pat != [] && |rep| < |pat| && Contains(s, pat)
    ensures |ReplaceAll(s, pat, rep)| < |s|
    decreases |s|
  {
    if !(pat <= s) {
      ReplaceShrinks(s[1..], pat, rep);
    }
  }

  /** With a shorter replacement, the text is unchanged exactly when it has no occurrence. */
  lemma ReplaceFixedPoint(s: string, pat: string, rep: string)
    requires pat != [] && |rep| < |pat|
    ensures ReplaceAll(s, pat, rep) == s <==> !Contains(s, pat)
  {
    if Contains(s, pat) {
      ReplaceShrinks(s, pat, rep);
    } else {
      ReplaceAbsent(s, pat, rep);
    }
  }

  /** An occurrence at the head is replaced and the scan goes on behind it. */
  lemma ReplaceAtHead(pat: string, rep: string, b: string)
    requires pat != []
    ensures ReplaceAll(pat + b, pat, rep) == rep + ReplaceAll(b, pat, rep)
  {
    assert (pat + b)[|pat|..] == b;
  }

  // ---------------------------------------------------------------------------
  // `simplify_rust_symbols`
  // ---------------------------------------------------------------------------

  /** The path shortenings, as (path, short form), in the order they are applied. */
  const Shortenings: seq<(string, string)> := [
    ("core::ops::function::FnOnce::", "FnOnce::"),
    ("core::ops::function::FnMut::", "FnMut::"),
    ("core::ops::function::Fn::", "Fn::"),
    ("core::fmt::", "fmt::"),
    ("alloc::string::String", "String"),
    ("alloc::vec::Vec", "Vec")
  ]

  /** Every path is non-empty and strictly longer than its short form. */
  predicate Shrinking(k: int) {
    0 <= k < |Shortenings| && Shortenings[k].0 != [] && |Shortenings[k].1| < |Shortenings[k].0|
  }

  lemma AllShrinking(k: int)
    requires 0 <= k < |Shortenings|
    ensures Shrinking(k)
  {
  }

  /** The shortenings from the `k`-th on, each one applied to the result of the one before. */
  function ShortenFrom(t: string, k: nat): (r: string)
    requires k <= |Shortenings|
    ensures |r| <= |t|
    decreases |Shortenings| - k
  {
    if k == |Shortenings| then t
    else
      AllShrinking(k);
      ShortenFrom(ReplaceAll(t, Shortenings[k].0, Shortenings[k].1), k + 1)
  }

  /** Hash removal, then the six path shortenings in source order. */
  function Simplify(text: string): (r: string)
    ensures |r| <= |text|
  {
    ShortenFrom(RemoveHashes(text), 0)
  }

  /** None of the paths from the `k`-th on occurs in `s`. */
  predicate NoPathFrom(s: string, k: nat) {
    forall j :: k <= j < |Shortenings| ==> !Contains(s, Shortenings[j].0)
  }

  /** The shortenings leave text unchanged exactly when none of their paths occurs in it. */
  lemma {:induction false} ShortenFromFixedPoint(t: string, k: nat)
    requires k <= |Shortenings|
    ensures ShortenFrom(t, k) == t <==> NoPathFrom(t, k)
    decreases |Shortenings| - k
  {
    if k < |Shortenings| {
      AllShrinking(k);
      var (path, short) := Shortenings[k];
      ReplaceFixedPoint(t, path, short);
      if Contains(t, path) {
        ReplaceShrinks(t, path, short);
      } else {
        ShortenFromFixedPoint(t, k + 1);
      }
    }
  }

  /** Text the simplifier has nothing to do on: no hash and none of the six paths. */
  predicate Untouched(s: string) {
    HashFree(s) && NoPathFrom(s, 0)
  }

  /** The simplifier leaves text unchanged exactly when there is nothing to do on it. */
  lemma SimplifyFixedPoint(s: string)
    ensures Simplify(s) == s <==> Untouched(s)
  {
    RemoveHashesFixedPoint(s);
    if HashFree(s) {
      ShortenFromFixedPoint(s, 0);
    } else {
      RemoveHashesShrinks(s);
    }
  }

  /** A path whose `i`-th character is missing from the text is skipped. */
  lemma ShortenSkip(t: string, k: nat, i: nat)
    requires k < |Shortenings| && i < |Shortenings[k].0| && Shortenings[k].0[i] !in t
    ensures ShortenFrom(t, k) == ShortenFrom(t, k + 1)
  {
    AllShrinking(k);
    Absent(t, Shortenings[k].0, i);
    ReplaceAbsent(t, Shortenings[k].0, Shortenings[k].1);
  }

  /** A path at the head of the text is replaced by its short form. */
  lemma ShortenAtHead(k: nat, rest: string)
    requires k < |Shortenings| && !Contains(rest, Shortenings[k].0)
    ensures ShortenFrom(Shortenings[k].0 + rest, k) == ShortenFrom(Shortenings[k].1 + rest, k + 1)
  {
    AllShrinking(k);
    ReplaceAtHead(Shortenings[k].0, Shortenings[k].1, rest);
    ReplaceAbsent(rest, Shortenings[k].0, Shortenings[k].1);
  }

  /** Paths before the `k`-th that do not occur leave the text as it is. */
  lemma {:induction false} NoPathBefore(t: string, k: nat)
    requires k <= |Shortenings|
    requires forall j :: 0 <= j < k ==> !Contains(t, Shortenings[j].0)
    ensures ShortenFrom(t, 0) == ShortenFrom(t, k)
    decreases k
  {
    if k > 0 {
      NoPathBefore(t, k - 1);
      AllShrinking(k - 1);
      ReplaceAbsent(t, Shortenings[k - 1].0, Shortenings[k - 1].1);
    }
  }

  /**
    A path at the head of hash-free text is replaced by its short form when
    nothing else is to be done: no earlier path occurs, the path does not
    occur again, and no later path occurs in the shortened text.
  */
  lemma PathShortened(k: nat, rest: string)
    requires k < |Shortenings|
    requires HashFree(Shortenings[k].0 + rest)
    requires forall j :: 0 <= j < k ==> !Contains(Shortenings[k].0 + rest, Shortenings[j].0)
    requires !Contains(rest, Shortenings[k].0)
    requires NoPathFrom(Shortenings[k].1 + rest, k + 1)
    ensures Simplify(Shortenings[k].0 + rest) == Shortenings[k].1 + rest
  {
    var s := Shortenings[k].0 + rest;
    RemoveHashesOfHashFree(s);
    NoPathBefore(s, k);
    ShortenAtHead(k, rest);
    ShortenFromFixedPoint(Shortenings[k].1 + rest, k + 1);
  }

  /** A hash at the end of the text makes no difference to the result. */
  lemma TrailingHashIgnored(a: string, h: string)
    requires IsHash(h)
    ensures Simplify(a + h) == Simplify(a)
  {
    DeletesEveryHash(a, h, []);
    assert a + h + [] == a + h;
    assert RemoveHashes([]) == [];
    assert RemoveHashes(a) + [] == RemoveHashes(a);
  }

  /** Every hash and every path holds a colon, so text without a colon is never changed. */
  lemma ColonFreeUntouched(s: string)
    requires ':' !in s
    ensures Simplify(s) == s
  {
    assert "::h"[0] == ':';
    Absent(s, "::h", 0);
    HashFreeWithoutMarker(s);
    forall j | 0 <= j < |Shortenings| ensures !Contains(s, Shortenings[j].0) {
      assert Shortenings[j].0[5] == ':';
      Absent(s, Shortenings[j].0, 5);
    }
    SimplifyFixedPoint(s);
  }

  // ---------------------------------------------------------------------------
  // Facts for concrete texts
  // ---------------------------------------------------------------------------

  // A character that every match of the hash pattern, or every path of a
  // group, holds: text without that character holds none of them.

  lemma WithoutH(s: string)
    requires 'h' !in s
    ensures HashFree(s)
  {
    assert "::h"[2] == 'h';
    Absent(s, "::h", 2);
    HashFreeWithoutMarker(s);
  }

  lemma WithoutColon(s: string)
    requires ':' !in s
    ensures NoPathFrom(s, 0)
  {
    forall j | 0 <= j < |Shortenings| ensures !Contains(s, Shortenings[j].0) {
      assert Shortenings[j].0[5] == ':';
      Absent(s, Shortenings[j].0, 5);
    }
  }

  /** `r` is in every path but the last. */
  lemma WithoutR(s: string)
    requires 'r' !in s
    ensures forall j :: 0 <= j < 5 ==> !Contains(s, Shortenings[j].0)
  {
    forall j | 0 <= j < 5 ensures !Contains(s, Shortenings[j].0) {
      if j < 4 {
        assert Shortenings[j].0[2] == 'r';
        Absent(s, Shortenings[j].0, 2);
      } else {
        assert Shortenings[j].0[9] == 'r';
        Absent(s, Shortenings[j].0, 9);
      }
    }
  }

  /** `e` is in every `core::` path. */
  lemma WithoutE(s: string)
    requires 'e' !in s
    ensures forall j :: 0 <= j < 4 ==> !Contains(s, Shortenings[j].0)
  {
    forall j | 0 <= j < 4 ensures !Contains(s, Shortenings[j].0) {
      assert Shortenings[j].0[3] == 'e';
      Absent(s, Shortenings[j].0, 3);
    }
  }

  /** `n` is in every `core::ops::function::` path. */
  lemma WithoutN(s: string)
    requires 'n' !in s
    ensures forall j :: 0 <= j < 3 ==> !Contains(s, Shortenings[j].0)
  {
    forall j | 0 <= j < 3 ensures !Contains(s, Shortenings[j].0) {
      assert Shortenings[j].0[13] == 'n';
      Absent(s, Shortenings[j].0, 13);
    }
  }

  lemma WithoutCapitalO(s: string)
    requires 'O' !in s
    ensures !Contains(s, Shortenings[0].0)
  {
    assert Shortenings[0].0[23] == 'O';
    Absent(s, Shortenings[0].0, 23);
  }

  lemma WithoutV(s: string)
    requires 'v' !in s
    ensures !Contains(s, Shortenings[5].0)
  {
    assert Shortenings[5].0[7] == 'v';
    Absent(s, Shortenings[5].0, 7);
  }

  /** A match found after a prefix is still found. */
  lemma {:induction false} HashFoundAfter(a: string, h: string)
    requires IsHash(h)
    ensures !HashFree(a + h)
    decreases |a|
  {
    if a == [] {
      assert (a + h)[..19] == h;
    } else {
      assert (a + h)[1..] == a[1..] + h;
      HashFoundAfter(a[1..], h);
    }
  }

  /** Characters other than a colon in front of hash-free text cannot start a match. */
  lemma {:induction false} HashFreeAfterColonless(a: string, t: string)
    requires ':' !in a && HashFree(t)
    ensures HashFree(a + t)
    decreases |a|
  {
    if a != [] {
      assert (a + t)[1..] == a[1..] + t;
      assert ':' !in a[1..] by {
        forall i | 0 <= i < |a[1..]| ensures a[1..][i] != ':' {
          assert a[1..][i] == a[i + 1];
        }
      }
      HashFreeAfterColonless(a[1..], t);
      assert a[0] != ':';
      assert !HashAtHead(a + t) by {
        if |a + t| >= 19 {
          assert (a + t)[..19][0] == a[0];
        }
      }
    } else {
      assert a + t == t;
    }
  }
}
