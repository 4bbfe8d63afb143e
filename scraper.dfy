/**
 * The fragment-line validator of the scraper library (`check_if_correct`): a
 * line is kept when its fifth whitespace-separated field is a string of
 * amino-acid letters and its sixth a string of secondary-structure letters.
 */
module Scraper {

  /** The 20 one-letter amino-acid codes (`AA_CODES`). */
  const AaCodes: seq<char> := ['A', 'R', 'N', 'D', 'C', 'Q', 'E', 'G', 'H', 'I',
                               'L', 'K', 'M', 'F', 'P', 'S', 'T', 'W', 'Y', 'V']

  /** The three secondary-structure codes (`SS_CODES`). */
  const SsCodes: seq<char> := ['H', 'E', 'C']

  /** Rust's `char::is_whitespace`: the characters with the Unicode White_Space property. */
  predicate IsWhitespace(c: char)
  {
    || ('\t' <= c <= '\r')
    || c == ' ' || c == '\U{85}' || c == '\U{A0}' || c == '\U{1680}'
    || ('\U{2000}' <= c <= '\U{200A}')
    || c == '\U{2028}' || c == '\U{2029}' || c == '\U{202F}' || c == '\U{205F}' || c == '\U{3000}'
  }

  predicate AllWhitespace(s: string)
  {
    forall i :: 0 <= i < |s| ==> IsWhitespace(s[i])
  }

  /** A token as `split_whitespace` yields it: non-empty, without whitespace. */
  predicate IsToken(t: string)
  {
    t != [] && forall i :: 0 <= i < |t| ==> !IsWhitespace(t[i])
  }

  /** The length of the leading run of non-whitespace characters. */
  function TokenLength(s: string): (k: nat)
    ensures k <= |s|
    ensures forall i :: 0 <= i < k ==> !IsWhitespace(s[i])
    ensures k < |s| ==> IsWhitespace(s[k])
  {
    if s == [] || IsWhitespace(s[0]) then 0 else 1 + TokenLength(s[1..])
  }

  /** `str::split_whitespace`: the maximal runs of non-whitespace characters, in order. */
  function SplitWhitespace(s: string): (r: seq<string>)
    ensures forall k :: 0 <= k < |r| ==> IsToken(r[k])
    decreases |s|
  {
    if s == [] then []
    else if IsWhitespace(s[0]) then SplitWhitespace(s[1..])
    else
      var k := TokenLength(s);
      [s[..k]] + SplitWhitespace(s[k..])
  }

  /** Every character of `t` is one of `alphabet` (`contains` compares exactly, so case matters). */
  predicate AllIn(t: string, alphabet: seq<char>)
  {
    forall i :: 0 <= i < |t| ==> t[i] in alphabet
  }

  /** The acceptance rule: the fifth field is all amino-acid codes and the sixth all secondary-structure codes. */
  predicate WellFormed(line: string)
    requires |SplitWhitespace(line)| >= 6
  {
    var fields := SplitWhitespace(line);
    AllIn(fields[4], AaCodes) && AllIn(fields[5], SsCodes)
  }

  /**
   * `check_if_correct(line)`: a flag starts true and is cleared by any
   * character of field 4 outside `AA_CODES` or of field 5 outside `SS_CODES`.
   * Indexing `elements[4]` and `elements[5]` panics on a shorter line, so six
   * fields are required.
   */
  method CheckIfCorrect(line: string) returns (ok: bool)
    requires |SplitWhitespace(line)| >= 6
    ensures ok == WellFormed(line)
  {
    ok := true;
    var elements := SplitWhitespace(line);
    var aa := elements[4];
    var ss := elements[5];
    for i := 0 to |aa|
      invariant ok == AllIn(aa[..i], AaCodes)
    {
      assert aa[..i + 1] == aa[..i] + [aa[i]];
      if aa[i] !in AaCodes {
        ok := false;
      }
    }
    assert aa[..|aa|] == aa;
    ghost var aaOk := ok;
    for i := 0 to |ss|
      invariant ok == (aaOk && AllIn(ss[..i], SsCodes))
    {
      assert ss[..i + 1] == ss[..i] + [ss[i]];
      if ss[i] !in SsCodes {
        ok := false;
      }
    }
    assert ss[..|ss|] == ss;
  }

  // ---------------------------------------------------------------------------
  // Whitespace does not matter

  /**
   * A line laid out from fields and separators: `seps[0]` before the first
   * field, `seps[i]` between fields i-1 and i, and `seps[|fields|]` after the
   * last one.
   */
  function Join(fields: seq<string>, seps: seq<string>): string
    requires |seps| == |fields| + 1
  {
    if fields == [] then seps[0] else seps[0] + fields[0] + Join(fields[1..], seps[1..])
  }

  /** Separators are whitespace, and those between two fields are not empty. */
  predicate Separates(seps: seq<string>, count: nat)
  {
    && |seps| == count + 1
    && (forall i :: 0 <= i < |seps| ==> AllWhitespace(seps[i]))
    && (forall i :: 0 < i < count ==> seps[i] != [])
  }

  /** Leading whitespace is skipped. */
  lemma {:induction false} SplitSkipsWhitespace(w: string, s: string)
    requires AllWhitespace(w)
    ensures SplitWhitespace(w + s) == SplitWhitespace(s)
    decreases |w|
  {
    if w != [] {
      assert (w + s)[1..] == w[1..] + s;
      SplitSkipsWhitespace(w[1..], s);
    } else {
      assert w + s == s;
    }
  }

  /** A token followed by nothing or by whitespace is split off whole. */
  lemma {:induction false} SplitTakesToken(t: string, s: string)
    requires IsToken(t)
    requires s == [] || IsWhitespace(s[0])
    ensures SplitWhitespace(t + s) == [t] + SplitWhitespace(s)
  {
    TokenLengthOfToken(t, s);
    assert (t + s)[..|t|] == t && (t + s)[|t|..] == s;
  }

  lemma {:induction false} TokenLengthOfToken(t: string, s: string)
    requires forall i :: 0 <= i < |t| ==> !IsWhitespace(t[i])
    requires s == [] || IsWhitespace(s[0])
    ensures TokenLength(t + s) == |t|
    decreases |t|
  {
    if t == [] {
      assert t + s == s;
    } else {
      assert (t + s)[1..] == t[1..] + s;
      TokenLengthOfToken(t[1..], s);
    }
  }

  /** Splitting a laid-out line gives back its fields, whatever whitespace separates them. */
  lemma {:induction false} SplitJoin(fields: seq<string>, seps: seq<string>)
    requires forall k :: 0 <= k < |fields| ==> IsToken(fields[k])
    requires Separates(seps, |fields|)
    ensures SplitWhitespace(Join(fields, seps)) == fields
    decreases |fields|
  {
    if fields == [] {
      SplitSkipsWhitespace(seps[0], []);
      assert seps[0] + [] == seps[0];
    } else {
      var rest := Join(fields[1..], seps[1..]);
      assert Separates(seps[1..], |fields| - 1);
      SplitJoin(fields[1..], seps[1..]);
      assert rest == [] || IsWhitespace(rest[0]) by {
        if |fields| > 1 {
          assert rest == seps[1] + (fields[1] + Join(fields[2..], seps[2..]));
          assert rest[0] == seps[1][0];
        } else {
          assert rest == seps[1];
        }
      }
      SplitTakesToken(fields[0], rest);
      assert seps[0] + fields[0] + rest == seps[0] + (fields[0] + rest);
      SplitSkipsWhitespace(seps[0], fields[0] + rest);
      assert fields == [fields[0]] + fields[1..];
    }
  }

  /**
   * The verdict on a laid-out line depends only on fields 4 and 5: neither the
   * other fields nor the amount or kind of whitespace between fields affects it.
   */
  lemma OnlyFieldsFourAndFiveMatter(f1: seq<string>, s1: seq<string>, f2: seq<string>, s2: seq<string>)
    requires |f1| >= 6 && |f2| >= 6
    requires forall k :: 0 <= k < |f1| ==> IsToken(f1[k])
    requires forall k :: 0 <= k < |f2| ==> IsToken(f2[k])
    requires Separates(s1, |f1|) && Separates(s2, |f2|)
    requires f1[4] == f2[4] && f1[5] == f2[5]
    ensures |SplitWhitespace(Join(f1, s1))| >= 6 && |SplitWhitespace(Join(f2, s2))| >= 6
    ensures WellFormed(Join(f1, s1)) == WellFormed(Join(f2, s2))
  {
    SplitJoin(f1, s1);
    SplitJoin(f2, s2);
  }

  /** On a laid-out line the verdict is the rule applied to fields 4 and 5 themselves. */
  lemma WellFormedJoin(fields: seq<string>, seps: seq<string>)
    requires |fields| >= 6
    requires forall k :: 0 <= k < |fields| ==> IsToken(fields[k])
    requires Separates(seps, |fields|)
    ensures |SplitWhitespace(Join(fields, seps))| >= 6
    ensures WellFormed(Join(fields, seps)) <==> AllIn(fields[4], AaCodes) && AllIn(fields[5], SsCodes)
  {
    SplitJoin(fields, seps);
  }

  /** One character outside the alphabet, anywhere in field 4 or 5, rejects the line; lower-case letters are outside. */
  lemma OneBadCharacterRejects(line: string, k: nat)
    requires |SplitWhitespace(line)| >= 6
    requires var f := SplitWhitespace(line);
      (k < |f[4]| && (f[4][k] !in AaCodes || 'a' <= f[4][k] <= 'z'))
      || (k < |f[5]| && (f[5][k] !in SsCodes || 'a' <= f[5][k] <= 'z'))
    ensures !WellFormed(line)
  {
  }
}
