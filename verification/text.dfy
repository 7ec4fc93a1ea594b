/** Strings as the pipeline handles them: how a table cell becomes text,
    ASCII lower-casing, Python's substring test `kw in text`, and Python's
    code-point ordering of strings (used by the group-by sort). */
module Text {

  /** One cell of the loaded table: a string, or the NaN that the CSV reader
      produces for an empty cell. */
  datatype Cell = Str(s: string) | NaN

  /** Python's `str(cell)`; `str(NaN)` is "nan". */
  function AsString(c: Cell): string {
    match c
    case Str(s) => s
    case NaN => "nan"
  }

  function LowerChar(c: char): char {
    if 'A' <= c <= 'Z' then (c as int + 32) as char else c
  }

  predicate IsLower(s: string) {
    forall i | 0 <= i < |s| :: !('A' <= s[i] <= 'Z')
  }

  /** `str.lower()`, restricted to ASCII letters. */
  function Lower(s: string): (r: string)
    ensures |r| == |s|
  {
    if s == [] then [] else [LowerChar(s[0])] + Lower(s[1..])
  }

  /** Lower-casing works character by character. */
  lemma {:induction false} LowerAt(s: string, i: nat)
    requires i < |s|
    ensures Lower(s)[i] == LowerChar(s[i])
  {
    if i > 0 {
      LowerAt(s[1..], i - 1);
    }
  }

  /** The result of lower-casing has no upper-case letter left. */
  lemma LowerIsLower(s: string)
    ensures IsLower(Lower(s))
  {
    forall i | 0 <= i < |s|
      ensures !('A' <= Lower(s)[i] <= 'Z')
    {
      LowerAt(s, i);
    }
  }

  /** Lower-casing leaves lower-case text unchanged. */
  lemma {:induction false} LowerOfLower(s: string)
    requires IsLower(s)
    ensures Lower(s) == s
  {
    if s != [] {
      assert IsLower(s[1..]) by {
        forall i | 0 <= i < |s[1..]| ensures !('A' <= s[1..][i] <= 'Z') {
          assert s[1..][i] == s[i + 1];
        }
      }
      LowerOfLower(s[1..]);
    }
  }

  /** Lower-casing is idempotent. */
  lemma LowerIdempotent(s: string)
    ensures Lower(Lower(s)) == Lower(s)
  {
    LowerIsLower(s);
    LowerOfLower(Lower(s));
  }

  /** `kw` occurs in `text` starting at position `i`. */
  predicate OccursAt(text: string, kw: string, i: nat) {
    i + |kw| <= |text| && text[i..i + |kw|] == kw
  }

  /** Python's `kw in text` on strings, as a left-to-right search. */
  function Contains(text: string, kw: string): bool
    decreases |text|
  {
    if |kw| > |text| then false
    else if text[..|kw|] == kw then true
    else Contains(text[1..], kw)
  }

  /** The search finds `kw` exactly when it occurs somewhere in `text`. */
  lemma {:induction false} ContainsIff(text: string, kw: string)
    ensures Contains(text, kw) <==> exists i: nat :: OccursAt(text, kw, i)
    decreases |text|
  {
    if |kw| > |text| {
    } else if text[..|kw|] == kw {
      assert OccursAt(text, kw, 0);
    } else {
      ContainsIff(text[1..], kw);
      if Contains(text[1..], kw) {
        var i: nat :| OccursAt(text[1..], kw, i);
        assert text[1..][i..i + |kw|] == text[i + 1..i + 1 + |kw|];
        assert OccursAt(text, kw, i + 1);
      }
      if i: nat :| OccursAt(text, kw, i) {
        assert i != 0;
        assert text[1..][i - 1..i - 1 + |kw|] == text[i..i + |kw|];
        assert OccursAt(text[1..], kw, i - 1);
      }
    }
  }

  /** Python's `a < b` on strings: lexicographic by code point, a proper
      prefix coming first. */
  predicate StrLess(a: string, b: string)
    decreases |a|
  {
    if |a| == 0 then |b| > 0
    else if |b| == 0 then false
    else if a[0] != b[0] then a[0] < b[0]
    else StrLess(a[1..], b[1..])
  }

  lemma {:induction false} StrLessIrreflexive(a: string)
    ensures !StrLess(a, a)
    decreases |a|
  {
    if |a| > 0 {
      StrLessIrreflexive(a[1..]);
    }
  }

  lemma {:induction false} StrLessTransitive(a: string, b: string, c: string)
    requires StrLess(a, b) && StrLess(b, c)
    ensures StrLess(a, c)
    decreases |a|
  {
    if |a| > 0 && a[0] == b[0] && b[0] == c[0] {
      StrLessTransitive(a[1..], b[1..], c[1..]);
    }
  }

  lemma {:induction false} StrLessTotal(a: string, b: string)
    requires a != b
    ensures StrLess(a, b) || StrLess(b, a)
    decreases |a|
  {
    if |a| > 0 && |b| > 0 && a[0] == b[0] {
      assert a == [a[0]] + a[1..] && b == [b[0]] + b[1..];
      StrLessTotal(a[1..], b[1..]);
    }
  }
}
