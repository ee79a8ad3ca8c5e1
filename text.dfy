/** Strings as the JavaScript code uses them: substring search (`includes`), lower-casing,
    number formatting in template literals, and the ordering of a listing sorted by name. */
module Text {

  /** `s.includes(t)`: some window of `s` equals `t`. */
  function Contains(s: string, t: string): (r: bool)
    decreases |s|
  {
    if |t| > |s| then false
    else if s[..|t|] == t then true
    else Contains(s[1..], t)
  }

  /** `Contains` finds every occurrence: `t` placed between any two strings is found. */
  lemma {:induction false} ContainsWitness(a: string, t: string, b: string)
    ensures Contains(a + t + b, t)
  {
    var s := a + t + b;
    if a == [] {
      assert s[..|t|] == t;
    } else {
      assert s[1..] == a[1..] + t + b;
      ContainsWitness(a[1..], t, b);
    }
  }

  /** A phrase right after a prefix is found. */
  lemma PhraseAfter(prefix: string, phrase: string, rest: string)
    ensures Contains(prefix + (phrase + rest), phrase)
  {
    assert prefix + (phrase + rest) == prefix + phrase + rest;
    ContainsWitness(prefix, phrase, rest);
  }

  /** `t` occurs in `s` starting at index `i`. */
  predicate OccursAt(s: string, t: string, i: nat) {
    i + |t| <= |s| && s[i..i + |t|] == t
  }

  /** `Contains` is exactly "occurs at some index". */
  lemma {:induction false} ContainsIff(s: string, t: string)
    ensures Contains(s, t) <==> exists i: nat :: OccursAt(s, t, i)
    decreases |s|
  {
    if |t| > |s| {
    } else if s[..|t|] == t {
      assert OccursAt(s, t, 0);
    } else {
      ContainsIff(s[1..], t);
      if Contains(s[1..], t) {
        var i: nat :| OccursAt(s[1..], t, i);
        assert s[i + 1..i + 1 + |t|] == s[1..][i..i + |t|];
        assert OccursAt(s, t, i + 1);
      } else {
        forall i: nat | OccursAt(s, t, i) ensures false {
          if i > 0 {
            assert s[1..][i - 1..i - 1 + |t|] == s[i..i + |t|];
            assert OccursAt(s[1..], t, i - 1);
          }
        }
      }
    }
  }

  /** A string in which the first character of `t` never appears does not contain `t`. */
  lemma FirstCharAbsent(s: string, t: string)
    requires |t| > 0 && t[0] !in s
    ensures !Contains(s, t)
  {
    ContainsIff(s, t);
  }

  /** If the first character of `t` appears in `s` only at `p`, and `t` differs from `s`
      in position `j` when placed there, `s` does not contain `t`. */
  lemma SingleCandidateAt(s: string, t: string, p: nat, j: nat)
    requires |t| > 0 && p < |s| && s[p] == t[0]
    requires forall k :: 0 <= k < |s| && k != p ==> s[k] != t[0]
    requires j < |t| && p + j < |s| && s[p + j] != t[j]
    ensures !Contains(s, t)
  {
    ContainsIff(s, t);
  }

  /** In `a + [t[0]] + c` the first character of `t` appears once, right after `a`; if `t`
      differs there in position `j`, the string does not contain `t`. */
  lemma SingleCandidate(a: string, c: string, t: string, j: nat)
    requires |t| > 0 && t[0] !in a && t[0] !in c
    requires j < |t| && |a| + j <= |a| + |c|
    requires (a + [t[0]] + c)[|a| + j] != t[j]
    ensures !Contains(a + [t[0]] + c, t)
  {
    var s := a + [t[0]] + c;
    forall k | 0 <= k < |s| && k != |a| ensures s[k] != t[0] {
      if k < |a| {
        assert s[k] == a[k];
        assert a[k] in a;
      } else {
        assert s[k] == c[k - |a| - 1];
        assert c[k - |a| - 1] in c;
      }
    }
    SingleCandidateAt(s, t, |a|, j);
  }

  /** The empty string occurs in every string. */
  lemma ContainsEmpty(s: string)
    ensures Contains(s, "")
  {
    assert s[..0] == "";
  }

  /** `toLowerCase` on the ASCII letters. */
  function LowerChar(c: char): (r: char)
    ensures 'A' <= c <= 'Z' ==> r as int == c as int + 32
    ensures !('A' <= c <= 'Z') ==> r == c
  {
    if 'A' <= c <= 'Z' then (c as int + 32) as char else c
  }

  function ToLower(s: string): (r: string)
    ensures |r| == |s|
    ensures forall i :: 0 <= i < |s| ==> r[i] == LowerChar(s[i])
  {
    seq(|s|, i requires 0 <= i < |s| => LowerChar(s[i]))
  }

  /** Lower-casing twice is lower-casing once. */
  lemma ToLowerIdempotent(s: string)
    ensures ToLower(ToLower(s)) == ToLower(s)
  {
  }

  /** Lower-casing both sides keeps every occurrence: an exact match is also a match
      ignoring case. */
  lemma ContainsLower(s: string, t: string)
    ensures Contains(s, t) ==> Contains(ToLower(s), ToLower(t))
  {
    ContainsIff(s, t);
    ContainsIff(ToLower(s), ToLower(t));
    if Contains(s, t) {
      var i: nat :| OccursAt(s, t, i);
      assert ToLower(s)[i..i + |t|] == ToLower(t) by {
        forall k | 0 <= k < |t| ensures ToLower(s)[i..i + |t|][k] == ToLower(t)[k] {
          assert s[i..i + |t|][k] == t[k];
        }
      }
      assert OccursAt(ToLower(s), ToLower(t), i);
    }
  }

  function DigitChar(d: nat): char
    requires d < 10
  {
    "0123456789"[d]
  }

  /** `${n}` for a non-negative integer. */
  function NatToString(n: nat): (r: string)
    decreases n
  {
    if n < 10 then [DigitChar(n)] else NatToString(n / 10) + [DigitChar(n % 10)]
  }

  /** `${n}` for any integer. */
  function IntToString(n: int): string {
    if n < 0 then "-" + NatToString(-n) else NatToString(n)
  }

  /** Lexicographic order on code points: the order a database listing sorted by
      name follows under a byte-wise ("C") collation. */
  predicate StrLe(a: string, b: string)
    decreases |a|
  {
    if a == [] then true
    else if b == [] then false
    else if a[0] != b[0] then a[0] < b[0]
    else StrLe(a[1..], b[1..])
  }

  lemma {:induction false} StrLeTotal(a: string, b: string)
    ensures StrLe(a, b) || StrLe(b, a)
    decreases |a|
  {
    if a != [] && b != [] && a[0] == b[0] {
      StrLeTotal(a[1..], b[1..]);
    }
  }

  lemma {:induction false} StrLeTransitive(a: string, b: string, c: string)
    requires StrLe(a, b) && StrLe(b, c)
    ensures StrLe(a, c)
    decreases |a|
  {
    if a != [] && b != [] && c != [] && a[0] == b[0] && b[0] == c[0] {
      StrLeTransitive(a[1..], b[1..], c[1..]);
    }
  }
}
