/**
 * The string operations the source takes from the JavaScript runtime:
 * `toLowerCase` (with the final-sigma rule of the Unicode standard),
 * `includes`, `Array.prototype.join` and `String.prototype.split` on a
 * one-character separator.
 */
module Strings {

  const CapitalSigma: char := '\U{03A3}'
  const SmallSigma: char := '\U{03C3}'
  const FinalSmallSigma: char := '\U{03C2}'

  /**
   * The context-free lower-case mapping of one character: Latin A-Z, the
   * Latin-1 capitals U+00C0..U+00DE (but U+00D7), the Greek capitals
   * U+0391..U+03AB and the accented Greek capitals move to their small
   * letters; every other character is left as it is.
   */
  function LowerChar(c: char): (r: char)
    ensures r != CapitalSigma
  {
    if 'A' <= c <= 'Z' then (c as int + 32) as char
    else if '\U{00C0}' <= c <= '\U{00DE}' && c != '\U{00D7}' then (c as int + 32) as char
    else if '\U{0391}' <= c <= '\U{03AB}' && c != '\U{03A2}' then (c as int + 32) as char
    else if c == '\U{0386}' then '\U{03AC}'
    else if '\U{0388}' <= c <= '\U{038A}' then (c as int + 37) as char
    else if c == '\U{038C}' then '\U{03CC}'
    else if '\U{038E}' <= c <= '\U{038F}' then (c as int + 63) as char
    else c
  }

  /** Lowering a lowered character changes nothing. */
  lemma LowerCharIdempotent(c: char)
    ensures LowerChar(LowerChar(c)) == LowerChar(c)
  {
  }

  /** A letter that has case: the Latin, Latin-1 and Greek letters, capital or small. */
  predicate Cased(c: char) {
    || 'A' <= c <= 'Z' || 'a' <= c <= 'z'
    || c == '\U{00AA}' || c == '\U{00B5}' || c == '\U{00BA}'
    || ('\U{00C0}' <= c <= '\U{00FF}' && c != '\U{00D7}' && c != '\U{00F7}')
    || c == '\U{0386}' || ('\U{0388}' <= c <= '\U{03CE}' && c != '\U{038B}' && c != '\U{038D}' && c != '\U{03A2}')
  }

  /** Characters the final-sigma rule looks through: apostrophes, stops, accents and combining marks. */
  predicate CaseIgnorable(c: char) {
    || c == '\'' || c == '.' || c == ':' || c == '^' || c == '`'
    || c == '\U{00A8}' || c == '\U{00AD}' || c == '\U{00AF}' || c == '\U{00B4}' || c == '\U{00B7}' || c == '\U{00B8}'
    || ('\U{0300}' <= c <= '\U{036F}')
    || c == '\U{0374}' || c == '\U{0375}' || c == '\U{037A}' || c == '\U{0384}' || c == '\U{0385}' || c == '\U{0387}'
  }

  /** Some cased letter comes before position `i`, with only case-ignorable characters in between. */
  predicate CasedBefore(s: string, i: int)
    requires 0 <= i <= |s|
    decreases i
  {
    i > 0 && (Cased(s[i - 1]) || (CaseIgnorable(s[i - 1]) && CasedBefore(s, i - 1)))
  }

  /** Some cased letter comes at or after position `j`, with only case-ignorable characters before it. */
  predicate CasedAfter(s: string, j: int)
    requires 0 <= j <= |s|
    decreases |s| - j
  {
    j < |s| && (Cased(s[j]) || (CaseIgnorable(s[j]) && CasedAfter(s, j + 1)))
  }

  /** The Final_Sigma condition of the Unicode standard: the capital sigma at `i` ends a word. */
  predicate FinalSigma(s: string, i: int)
    requires 0 <= i < |s|
  {
    CasedBefore(s, i) && !CasedAfter(s, i + 1)
  }

  function LowerAt(s: string, i: int): char
    requires 0 <= i < |s|
  {
    if s[i] == CapitalSigma && FinalSigma(s, i) then FinalSmallSigma else LowerChar(s[i])
  }

  /**
   * `toLowerCase`: every character is lowered on its own, whatever surrounds
   * it, except the capital sigma, which becomes the final sigma where it ends
   * a word and the small sigma elsewhere.
   */
  function Lower(s: string): (r: string)
    ensures |r| == |s|
    ensures forall i :: 0 <= i < |s| && s[i] != CapitalSigma ==> r[i] == LowerChar(s[i])
    ensures forall i :: 0 <= i < |s| && s[i] == CapitalSigma ==>
      (r[i] == FinalSmallSigma <==> FinalSigma(s, i)) && (r[i] == FinalSmallSigma || r[i] == SmallSigma)
  {
    seq(|s|, i requires 0 <= i < |s| => LowerAt(s, i))
  }

  /** The lowered text holds no capital sigma, so lowering it again changes nothing. */
  lemma LowerIdempotent(s: string)
    ensures Lower(Lower(s)) == Lower(s)
  {
    var l := Lower(s);
    forall i | 0 <= i < |s| ensures Lower(l)[i] == l[i] {
      if s[i] != CapitalSigma {
        LowerCharIdempotent(s[i]);
      }
    }
  }

  /** The capital sigma ends a word after a letter, and is the small sigma on its own or inside a word. */
  lemma LowerSigmaExamples()
    ensures Lower([CapitalSigma]) == [SmallSigma]
    ensures Lower(['\U{0391}', CapitalSigma]) == ['\U{03B1}', FinalSmallSigma]
    ensures Lower(['\U{0391}', CapitalSigma, '\U{0392}']) == ['\U{03B1}', SmallSigma, '\U{03B2}']
  {
    assert !CasedBefore([CapitalSigma], 0);
    var two := ['\U{0391}', CapitalSigma];
    assert CasedBefore(two, 1) && !CasedAfter(two, 2);
    var three := ['\U{0391}', CapitalSigma, '\U{0392}'];
    assert CasedAfter(three, 2);
  }

  /** Away from capital sigmas, lowering a slice is slicing the lowered text. */
  lemma LowerSliceNoSigma(s: string, i: int, j: int)
    requires 0 <= i <= j <= |s|
    requires CapitalSigma !in s[i..j]
    ensures Lower(s[i..j]) == Lower(s)[i..j]
  {
    forall k | 0 <= k < j - i ensures Lower(s[i..j])[k] == Lower(s)[i + k] {
      assert s[i..j][k] == s[i + k];
    }
  }

  predicate IsPrefix(p: string, s: string) {
    |p| <= |s| && s[..|p|] == p
  }

  /** `s.includes(t)`, searched left to right. */
  predicate Contains(s: string, t: string)
    decreases |s|
  {
    IsPrefix(t, s) || (|s| > 0 && Contains(s[1..], t))
  }

  /** The independent meaning of `Contains`: `t` occurs at some offset of `s`. */
  ghost predicate OccursAt(s: string, t: string, i: int) {
    0 <= i && i + |t| <= |s| && s[i..i + |t|] == t
  }

  lemma {:induction false} ContainsIff(s: string, t: string)
    ensures Contains(s, t) <==> exists i :: OccursAt(s, t, i)
    decreases |s|
  {
    if IsPrefix(t, s) {
      assert OccursAt(s, t, 0);
    } else if |s| > 0 {
      ContainsIff(s[1..], t);
      if Contains(s[1..], t) {
        var i :| OccursAt(s[1..], t, i);
        assert s[1..][i..i + |t|] == s[i + 1..i + 1 + |t|];
        assert OccursAt(s, t, i + 1);
      } else {
        forall i | OccursAt(s, t, i) ensures false {
          if i > 0 {
            assert s[1..][i - 1..i - 1 + |t|] == s[i..i + |t|];
            assert OccursAt(s[1..], t, i - 1);
          }
        }
      }
    } else {
      forall i | OccursAt(s, t, i) ensures false {
      }
    }
  }

  /** Every string contains the empty string (`"abc".includes("")` is true). */
  lemma ContainsEmpty(s: string)
    ensures Contains(s, "")
  {
    assert IsPrefix("", s);
  }

  /** One character's case fold: its lower-case letter, with both small sigmas read as one. */
  function FoldChar(c: char): char {
    if c == CapitalSigma || c == FinalSmallSigma then SmallSigma else LowerChar(c)
  }

  /** `toLowerCase` followed by reading the final sigma as the small sigma. */
  function Folded(s: string): (r: string)
    ensures |r| == |s|
  {
    var l := Lower(s);
    seq(|s|, i requires 0 <= i < |s| => if l[i] == FinalSmallSigma then SmallSigma else l[i])
  }

  /** The fold of a text depends on each character alone: the final-sigma context drops out. */
  lemma FoldedAt(s: string, i: int)
    requires 0 <= i < |s|
    ensures Folded(s)[i] == FoldChar(s[i])
  {
  }

  /** Folding a slice is slicing the folded text, whatever characters it holds. */
  lemma FoldedSlice(s: string, i: int, j: int)
    requires 0 <= i <= j <= |s|
    ensures Folded(s[i..j]) == Folded(s)[i..j]
  {
    forall k | 0 <= k < j - i ensures Folded(s[i..j])[k] == Folded(s)[i + k] {
      assert s[i..j][k] == s[i + k];
      FoldedAt(s[i..j], k);
      FoldedAt(s, i + k);
    }
  }

  /** Folding preserves every occurrence. */
  lemma FoldedPreservesContains(s: string, t: string)
    requires Contains(s, t)
    ensures Contains(Folded(s), Folded(t))
  {
    ContainsIff(s, t);
    var i :| OccursAt(s, t, i);
    FoldedSlice(s, i, i + |t|);
    assert OccursAt(Folded(s), Folded(t), i);
    ContainsIff(Folded(s), Folded(t));
  }

  /** An occurrence between lowered texts survives reading the final sigma as the small sigma. */
  lemma LowerContainsFolds(s: string, t: string)
    requires Contains(Lower(s), Lower(t))
    ensures Contains(Folded(s), Folded(t))
  {
    ContainsIff(Lower(s), Lower(t));
    var i :| OccursAt(Lower(s), Lower(t), i);
    forall k | 0 <= k < |t| ensures Folded(s)[i + k] == Folded(t)[k] {
      assert Lower(s)[i..i + |t|][k] == Lower(s)[i + k];
    }
    assert OccursAt(Folded(s), Folded(t), i);
    ContainsIff(Folded(s), Folded(t));
  }

  /** Lower-casing preserves an occurrence of a term that holds no capital sigma. */
  lemma LowerPreservesContains(s: string, t: string)
    requires Contains(s, t) && CapitalSigma !in t
    ensures Contains(Lower(s), Lower(t))
  {
    ContainsIff(s, t);
    var i :| OccursAt(s, t, i);
    LowerSliceNoSigma(s, i, i + |t|);
    assert OccursAt(Lower(s), Lower(t), i);
    ContainsIff(Lower(s), Lower(t));
  }

  /** If `u` occurs in `t` and `t` occurs in `s`, then `u` occurs in `s`. */
  lemma ContainsTrans(s: string, t: string, u: string)
    requires Contains(s, t) && Contains(t, u)
    ensures Contains(s, u)
  {
    ContainsIff(s, t);
    ContainsIff(t, u);
    var i :| OccursAt(s, t, i);
    var j :| OccursAt(t, u, j);
    assert t == s[i..i + |t|];
    forall k | 0 <= k < |u| ensures s[i + j + k] == u[k] {
      assert u[k] == t[j + k];
      assert t[j + k] == s[i + j + k];
    }
    assert s[i + j..i + j + |u|] == u;
    assert OccursAt(s, u, i + j);
    ContainsIff(s, u);
  }

  /** `parts.join(sep)` for a one-character separator. */
  function Join(parts: seq<string>, sep: char): (r: string)
    ensures |parts| == 1 ==> r == parts[0]
    decreases |parts|
  {
    if |parts| == 0 then ""
    else if |parts| == 1 then parts[0]
    else parts[0] + [sep] + Join(parts[1..], sep)
  }

  /** `s.split(sep)`: always at least one piece, as in JavaScript. */
  function Split(s: string, sep: char): (r: seq<string>)
    ensures |r| >= 1
    ensures forall k :: 0 <= k < |r| ==> sep !in r[k]
    decreases |s|
  {
    if s == [] then [""]
    else if s[0] == sep then [""] + Split(s[1..], sep)
    else
      var rest := Split(s[1..], sep);
      [[s[0]] + rest[0]] + rest[1..]
  }

  lemma {:induction false} SplitNoSep(p: string, sep: char)
    requires sep !in p
    ensures Split(p, sep) == [p]
    decreases |p|
  {
    if p != [] {
      SplitNoSep(p[1..], sep);
      assert [p[0]] + p[1..] == p;
    }
  }

  lemma {:induction false} SplitCons(p: string, sep: char, rest: string)
    requires sep !in p
    ensures Split(p + [sep] + rest, sep) == [p] + Split(rest, sep)
    decreases |p|
  {
    var s := p + [sep] + rest;
    if p == [] {
      assert s == [sep] + rest;
      assert s[1..] == rest;
    } else {
      assert s[1..] == p[1..] + [sep] + rest;
      SplitCons(p[1..], sep, rest);
      assert [p[0]] + p[1..] == p;
    }
  }

  /** Splitting a joined list gives the list back when no part holds the separator. */
  lemma {:induction false} SplitJoin(parts: seq<string>, sep: char)
    requires |parts| >= 1
    requires forall k :: 0 <= k < |parts| ==> sep !in parts[k]
    ensures Split(Join(parts, sep), sep) == parts
    decreases |parts|
  {
    if |parts| == 1 {
      SplitNoSep(parts[0], sep);
    } else {
      SplitJoin(parts[1..], sep);
      SplitCons(parts[0], sep, Join(parts[1..], sep));
      assert [parts[0]] + parts[1..] == parts;
    }
  }

  /** A joined list of at least one part is empty only when it is the single empty part. */
  lemma {:induction false} JoinEmpty(parts: seq<string>, sep: char)
    ensures Join(parts, sep) == "" <==> |parts| == 0 || (|parts| == 1 && parts[0] == "")
  {
  }

  /** A character absent from every part and different from the separator is absent from the join. */
  lemma {:induction false} JoinAvoids(parts: seq<string>, sep: char, c: char)
    requires c != sep
    requires forall k :: 0 <= k < |parts| ==> c !in parts[k]
    ensures c !in Join(parts, sep)
    decreases |parts|
  {
    if |parts| > 1 {
      JoinAvoids(parts[1..], sep, c);
    }
  }
}
