/**
 String operations the page applies to user input and stored records:
 lower-casing, substring search, trimming, and splitting on a separator.

 JavaScript's `toLowerCase` and `trim` follow Unicode. This module uses an
 ASCII approximation instead: only 'A'..'Z' are lower-cased, and only space,
 tab, carriage return and line feed count as whitespace.
 */
module Strings {

  // ---------------------------------------------------------------------------
  // Lower-casing (String.prototype.toLowerCase, ASCII only)
  // ---------------------------------------------------------------------------

  predicate IsUpper(c: char) {
    'A' <= c <= 'Z'
  }

  /** A capital becomes its small letter (32 code points on); every other character is kept. */
  function LowerChar(c: char): (d: char)
    ensures !IsUpper(d)
    ensures IsUpper(c) ==> d as int == c as int - 'A' as int + 'a' as int
    ensures !IsUpper(c) ==> d == c
  {
    if IsUpper(c) then (c as int - 'A' as int + 'a' as int) as char else c
  }

  /** The string with every ASCII capital replaced by its small letter. */
  function Lower(s: string): (r: string)
    ensures |r| == |s|
    ensures forall i :: 0 <= i < |r| ==> !IsUpper(r[i])
    ensures forall i :: 0 <= i < |s| && !IsUpper(s[i]) ==> r[i] == s[i]
    ensures forall i :: 0 <= i < |s| ==> r[i] == LowerChar(s[i])
  {
    if s == [] then [] else [LowerChar(s[0])] + Lower(s[1..])
  }

  /** Lower-casing an already lower-cased string changes nothing. */
  lemma LowerIdempotent(s: string)
    ensures Lower(Lower(s)) == Lower(s)
  {
    var t := Lower(s);
    assert forall i :: 0 <= i < |t| ==> Lower(t)[i] == t[i];
  }

  // ---------------------------------------------------------------------------
  // Substring search (String.prototype.includes)
  // ---------------------------------------------------------------------------

  predicate StartsWith(s: string, p: string) {
    |p| <= |s| && s[..|p|] == p
  }

  /** `t` occurs in `s` starting at index `i`. */
  predicate OccursAt(s: string, t: string, i: int) {
    0 <= i && i + |t| <= |s| && s[i..i + |t|] == t
  }

  /** `s.includes(t)`: `t` is a prefix of some suffix of `s`; a longer `t` never is. */
  predicate Contains(s: string, t: string)
    ensures Contains(s, t) ==> |t| <= |s|
    decreases |s|
  {
    StartsWith(s, t) || (|s| > 0 && Contains(s[1..], t))
  }

  /** Contains agrees with the index-based definition of a substring. */
  lemma {:induction false} ContainsIffOccurs(s: string, t: string)
    ensures Contains(s, t) <==> exists i :: OccursAt(s, t, i)
    decreases |s|
  {
    if StartsWith(s, t) {
      assert OccursAt(s, t, 0);
    } else if |s| > 0 {
      ContainsIffOccurs(s[1..], t);
      if Contains(s[1..], t) {
        var i :| OccursAt(s[1..], t, i);
        assert s[1..][i..i + |t|] == s[i + 1..i + 1 + |t|];
        assert OccursAt(s, t, i + 1);
      } else {
        forall i | 0 < i && OccursAt(s, t, i) ensures OccursAt(s[1..], t, i - 1) {
          assert s[1..][i - 1..i - 1 + |t|] == s[i..i + |t|];
        }
      }
    }
  }

  /** The empty string occurs in every string. */
  lemma ContainsEmpty(s: string)
    ensures Contains(s, "")
  {
    assert StartsWith(s, "");
  }

  // ---------------------------------------------------------------------------
  // Trimming (String.prototype.trim, ASCII whitespace only)
  // ---------------------------------------------------------------------------

  predicate IsSpace(c: char) {
    c == ' ' || c == '\t' || c == '\r' || c == '\n'
  }

  /** Neither the first nor the last character is whitespace. */
  predicate NoEdgeSpace(s: string) {
    s == [] || (!IsSpace(s[0]) && !IsSpace(s[|s| - 1]))
  }

  /** The number of whitespace characters at the start of `s`. */
  function Leading(s: string): (n: nat)
    ensures n <= |s|
    decreases |s|
  {
    if |s| > 0 && IsSpace(s[0]) then 1 + Leading(s[1..]) else 0
  }

  /** The number of whitespace characters at the end of `s`. */
  function Trailing(s: string): (n: nat)
    ensures n <= |s|
    decreases |s|
  {
    if |s| > 0 && IsSpace(s[|s| - 1]) then 1 + Trailing(s[..|s| - 1]) else 0
  }

  /** Leading counts exactly the whitespace run at the start: it ends at a non-whitespace character or at the end. */
  lemma {:induction false} LeadingIsSpaceRun(s: string)
    ensures forall i :: 0 <= i < Leading(s) ==> IsSpace(s[i])
    ensures Leading(s) < |s| ==> !IsSpace(s[Leading(s)])
    decreases |s|
  {
    if |s| > 0 && IsSpace(s[0]) {
      LeadingIsSpaceRun(s[1..]);
      forall i | 1 <= i < Leading(s) ensures IsSpace(s[i]) {
        assert s[1..][i - 1] == s[i];
      }
      assert Leading(s) < |s| ==> s[1..][Leading(s) - 1] == s[Leading(s)];
    }
  }

  /** Trailing counts exactly the whitespace run at the end: it starts after a non-whitespace character or at the start. */
  lemma {:induction false} TrailingIsSpaceRun(s: string)
    ensures forall i :: |s| - Trailing(s) <= i < |s| ==> IsSpace(s[i])
    ensures Trailing(s) < |s| ==> !IsSpace(s[|s| - 1 - Trailing(s)])
    decreases |s|
  {
    if |s| > 0 && IsSpace(s[|s| - 1]) {
      var p := s[..|s| - 1];
      TrailingIsSpaceRun(p);
      forall i | |s| - Trailing(s) <= i < |s| - 1 ensures IsSpace(s[i]) {
        assert p[i] == s[i];
      }
      assert Trailing(s) < |s| ==> p[|p| - 1 - Trailing(p)] == s[|s| - 1 - Trailing(s)];
    }
  }

  /** `s.trimStart()`. */
  function TrimStart(s: string): string {
    s[Leading(s)..]
  }

  /** `s.trimEnd()`. */
  function TrimEnd(s: string): string {
    s[..|s| - Trailing(s)]
  }

  /** `s.trim()`: whitespace removed from both ends; neither end of the result is whitespace. */
  function Trim(s: string): (r: string)
    ensures NoEdgeSpace(r)
  {
    var t := TrimStart(s);
    LeadingIsSpaceRun(s);
    TrailingIsSpaceRun(t);
    assert |t| - Trailing(t) > 0 ==> t[0] == s[Leading(s)];
    TrimEnd(t)
  }

  /**
   Trim cuts a contiguous piece `s[a..b]` out of `s`, and every character it
   cuts off on either side is whitespace.
   */
  lemma TrimCutsOnlySpace(s: string)
    ensures var a := Leading(s); var b := a + |Trim(s)|;
      b <= |s| && Trim(s) == s[a..b]
      && (forall i :: 0 <= i < a ==> IsSpace(s[i]))
      && (forall i :: b <= i < |s| ==> IsSpace(s[i]))
  {
    var a := Leading(s);
    var t := s[a..];
    var r := t[..|t| - Trailing(t)];
    assert Trim(s) == r by {
      assert TrimStart(s) == t;
    }
    var b := a + |r|;
    assert r == s[a..b];
    LeadingIsSpaceRun(s);
    forall i | b <= i < |s| ensures IsSpace(s[i]) {
      TrailingIsSpaceRun(t);
      assert t[i - a] == s[i];
    }
  }

  /** A string without whitespace at its edges is its own trim. */
  lemma TrimNoEdgeSpace(s: string)
    requires NoEdgeSpace(s)
    ensures Trim(s) == s
  {
  }

  /** Trimming twice is trimming once. */
  lemma TrimIdempotent(s: string)
    ensures Trim(Trim(s)) == Trim(s)
  {
    TrimNoEdgeSpace(Trim(s));
  }

  // ---------------------------------------------------------------------------
  // Splitting on a one-character separator (String.prototype.split), and
  // joining, which the page does not do, to state that splitting loses nothing
  // ---------------------------------------------------------------------------

  /** The number of occurrences of `c` in `s`. */
  function Count(s: string, c: char): (n: nat)
    ensures n <= |s|
    decreases |s|
  {
    if s == [] then 0 else (if s[0] == c then 1 else 0) + Count(s[1..], c)
  }

  /** Count is the multiplicity of `c` in the multiset of the characters of `s`. */
  lemma {:induction false} CountIsMultiplicity(s: string, c: char)
    ensures Count(s, c) == multiset(s)[c]
    decreases |s|
  {
    if s != [] {
      CountIsMultiplicity(s[1..], c);
      assert s == [s[0]] + s[1..];
    }
  }

  /**
   `s.split(sep)`: the pieces between separators, empty ones included; there
   is always one more piece than there are separators.
   */
  function Split(s: string, sep: char): (r: seq<string>)
    ensures |r| == Count(s, sep) + 1
    decreases |s|
  {
    if s == [] then [""]
    else
      var rest := Split(s[1..], sep);
      if s[0] == sep then [""] + rest else [[s[0]] + rest[0]] + rest[1..]
  }

  /** No piece of a split holds the separator. */
  lemma {:induction false} SplitOmitsSeparator(s: string, sep: char)
    ensures forall i :: 0 <= i < |Split(s, sep)| ==> sep !in Split(s, sep)[i]
    decreases |s|
  {
    if s != [] {
      SplitOmitsSeparator(s[1..], sep);
      var rest := Split(s[1..], sep);
      if s[0] != sep {
        assert Split(s, sep) == [[s[0]] + rest[0]] + rest[1..];
        assert sep !in [s[0]] + rest[0];
      }
    }
  }

  /** A string without the separator splits into itself alone. */
  lemma {:induction false} SplitNoSeparator(s: string, sep: char)
    requires sep !in s
    ensures Split(s, sep) == [s]
    decreases |s|
  {
    if s != [] {
      SplitNoSeparator(s[1..], sep);
      assert [s[0]] + s[1..] == s;
    }
  }

  /** Splitting at the first separator: the piece before it, then the split of the rest. */
  lemma {:induction false} SplitFirst(a: string, b: string, sep: char)
    requires sep !in a
    ensures Split(a + [sep] + b, sep) == [a] + Split(b, sep)
    decreases |a|
  {
    var s := a + [sep] + b;
    if a == [] {
      assert s[1..] == b;
    } else {
      assert s[1..] == a[1..] + [sep] + b;
      SplitFirst(a[1..], b, sep);
      assert [a[0]] + a[1..] == a;
    }
  }

  /** Two separator-free pieces with one separator between them split back into those two. */
  lemma SplitTwo(a: string, b: string, sep: char)
    requires sep !in a && sep !in b
    ensures Split(a + [sep] + b, sep) == [a, b]
  {
    SplitFirst(a, b, sep);
    SplitNoSeparator(b, sep);
  }

  /**
   Joining a non-empty list of parts with a separator between neighbours, as
   `parts.join(sep)` would. The page never joins; Join serves only to state
   that split loses nothing (JoinSplit).
   */
  function Join(parts: seq<string>, sep: char): string
    requires |parts| > 0
    decreases |parts|
  {
    if |parts| == 1 then parts[0] else parts[0] + [sep] + Join(parts[1..], sep)
  }

  /** Proof helper for JoinSplit: a character at the front of the first part stays at the front. */
  lemma JoinConsFirst(c: char, x: string, xs: seq<string>, sep: char)
    ensures Join([[c] + x] + xs, sep) == [c] + Join([x] + xs, sep)
  {
    assert ([[c] + x] + xs)[1..] == xs;
    assert ([x] + xs)[1..] == xs;
  }

  /** Joining the pieces of a split with the same separator gives the string back. */
  lemma {:induction false} JoinSplit(s: string, sep: char)
    ensures Join(Split(s, sep), sep) == s
    decreases |s|
  {
    if s != [] {
      var rest := Split(s[1..], sep);
      JoinSplit(s[1..], sep);
      if s[0] == sep {
        assert Split(s, sep) == [""] + rest;
        assert ([""] + rest)[1..] == rest;
        assert Join([""] + rest, sep) == [sep] + Join(rest, sep);
      } else {
        assert Split(s, sep) == [[s[0]] + rest[0]] + rest[1..];
        JoinConsFirst(s[0], rest[0], rest[1..], sep);
        assert [rest[0]] + rest[1..] == rest;
      }
      assert [s[0]] + s[1..] == s;
    }
  }

  /** Applies Trim to every piece (`pieces.map((p) => p.trim())`): one trimmed piece per piece. */
  function TrimAll(pieces: seq<string>): (r: seq<string>)
    ensures |r| == |pieces|
    ensures forall i :: 0 <= i < |r| ==> NoEdgeSpace(r[i])
  {
    seq(|pieces|, i requires 0 <= i < |pieces| => Trim(pieces[i]))
  }
}
