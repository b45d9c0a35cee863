/** The few Python `str` operations the scenario tooling relies on. */
module PyStrings {
  import opened Wrappers

  /** `pat` stands in `s` starting at index `p`. */
  predicate OccursAt(s: string, pat: string, p: int) {
    0 <= p && p + |pat| <= |s| && s[p..p + |pat|] == pat
  }

  /** `pat in s`. */
  ghost predicate Occurs(s: string, pat: string) {
    exists p :: OccursAt(s, pat, p)
  }

  /**
   * `s.replace(pat, rep)` for a non-empty `pat`: scanning left to right,
   * every non-overlapping occurrence is rewritten.
   */
  function Replace(s: string, pat: string, rep: string): string
    requires pat != []
    decreases |s|
  {
    if |s| < |pat| then s
    else if s[..|pat|] == pat then rep + Replace(s[|pat|..], pat, rep)
    else [s[0]] + Replace(s[1..], pat, rep)
  }

  /** A character in neither `s` nor `rep` is not in `s.replace(pat, rep)`. */
  lemma {:induction false} ReplaceKeepsAbsent(s: string, pat: string, rep: string, c: char)
    requires pat != [] && c !in s && c !in rep
    ensures c !in Replace(s, pat, rep)
    decreases |s|
  {
    if |s| < |pat| {
    } else if s[..|pat|] == pat {
      ReplaceKeepsAbsent(s[|pat|..], pat, rep, c);
    } else {
      ReplaceKeepsAbsent(s[1..], pat, rep, c);
    }
  }

  /** `s.replace(c, rep)` leaves no `c` behind when `rep` holds none. */
  lemma {:induction false} ReplaceRemovesChar(s: string, c: char, rep: string)
    requires c !in rep
    ensures c !in Replace(s, [c], rep)
    decreases |s|
  {
    if s != [] {
      ReplaceRemovesChar(s[1..], c, rep);
      if s[..1] != [c] {
        assert s[0] != c;
      }
    }
  }

  /** When `pat` starts nowhere inside `a`, replacing in `a + b` leaves `a` as it is. */
  lemma {:induction false} ReplacePrefixFree(a: string, b: string, pat: string, rep: string)
    requires pat != []
    requires forall p :: 0 <= p < |a| ==> !OccursAt(a + b, pat, p)
    ensures Replace(a + b, pat, rep) == a + Replace(b, pat, rep)
    decreases |a|
  {
    var t := a + b;
    if a == [] {
      assert t == b;
    } else if |t| < |pat| {
      assert Replace(b, pat, rep) == b;
    } else {
      assert t[..|pat|] != pat by {
        assert !OccursAt(t, pat, 0);
      }
      assert Replace(t, pat, rep) == [t[0]] + Replace(t[1..], pat, rep);
      assert t[1..] == a[1..] + b;
      NoOccurrenceInTail(a, b, pat);
      ReplacePrefixFree(a[1..], b, pat, rep);
      ConsConcat(a, Replace(b, pat, rep));
    }
  }

  /** Dropping the first character of `a` keeps `pat` from starting inside it. */
  lemma NoOccurrenceInTail(a: string, b: string, pat: string)
    requires a != [] && forall p :: 0 <= p < |a| ==> !OccursAt(a + b, pat, p)
    ensures forall p :: 0 <= p < |a[1..]| ==> !OccursAt(a[1..] + b, pat, p)
  {
    var t := a + b;
    forall p | 0 <= p < |a[1..]| ensures !OccursAt(a[1..] + b, pat, p) {
      assert !OccursAt(t, pat, p + 1);
      if p + |pat| <= |a[1..] + b| {
        assert t[p + 1..p + 1 + |pat|] == (a[1..] + b)[p..p + |pat|];
      }
    }
  }

  lemma Regroup<T>(a: seq<T>, b: seq<T>, c: seq<T>, d: seq<T>)
    ensures a + b + c + d == a + (b + c + d)
  {
  }

  lemma ConsConcat<T>(a: seq<T>, r: seq<T>)
    requires a != []
    ensures [a[0]] + (a[1..] + r) == a + r
  {
    assert a == [a[0]] + a[1..];
  }

  /**
   * When `pat` occurs in `s + pat` only as that final suffix, replacing it
   * rewrites just the suffix.
   */
  lemma ReplaceOnlySuffix(s: string, pat: string, rep: string)
    requires pat != []
    requires forall p :: 0 <= p < |s| ==> !OccursAt(s + pat, pat, p)
    ensures Replace(s + pat, pat, rep) == s + rep
  {
    ReplacePrefixFree(s, pat, pat, rep);
    assert pat[..|pat|] == pat && pat[|pat|..] == [];
    assert Replace(pat, pat, rep) == rep + Replace([], pat, rep);
  }

  /** No occurrence of `pat` starts inside a string lacking its first character. */
  lemma FirstCharAbsent(a: string, b: string, pat: string)
    requires pat != [] && pat[0] !in a
    ensures forall p :: 0 <= p < |a| ==> !OccursAt(a + b, pat, p)
  {
    forall p | 0 <= p < |a| ensures !OccursAt(a + b, pat, p) {
      if p + |pat| <= |a + b| {
        assert (a + b)[p..p + |pat|][0] == a[p];
      }
    }
  }

  /** Two back-to-back copies of `pat` are both rewritten. */
  lemma ReplaceTwice(pat: string, rep: string)
    requires pat != []
    ensures Replace(pat + pat, pat, rep) == rep + rep
  {
    var t := pat + pat;
    assert t[..|pat|] == pat && t[|pat|..] == pat;
    assert pat[..|pat|] == pat && pat[|pat|..] == [];
    assert Replace(pat, pat, rep) == rep + Replace([], pat, rep);
  }

  /** A string lacking some character of `pat` cannot contain `pat`. */
  lemma MissingCharNoOccurrence(s: string, pat: string, i: nat)
    requires i < |pat| && pat[i] !in s
    ensures !Occurs(s, pat)
  {
    forall p ensures !OccursAt(s, pat, p) {
      if 0 <= p && p + |pat| <= |s| {
        assert s[p..p + |pat|][i] == s[p + i];
      }
    }
  }

  /**
   * Gluing `b` after `a` creates no occurrence of `pat` when neither holds one
   * and the first character of `b` is not in `pat` (every straddling window
   * would contain it).
   */
  lemma ConcatNoOccurrence(a: string, b: string, pat: string)
    requires !Occurs(a, pat) && !Occurs(b, pat)
    requires b != [] && b[0] !in pat
    ensures !Occurs(a + b, pat)
  {
    forall p ensures !OccursAt(a + b, pat, p) {
      if 0 <= p && p + |pat| <= |a + b| {
        if p + |pat| <= |a| {
          assert (a + b)[p..p + |pat|] == a[p..p + |pat|];
          assert !OccursAt(a, pat, p);
        } else if p >= |a| {
          assert (a + b)[p..p + |pat|] == b[p - |a|..p - |a| + |pat|];
          assert !OccursAt(b, pat, p - |a|);
        } else {
          assert (a + b)[p..p + |pat|][|a| - p] == b[0];
        }
      }
    }
  }

  /**
   * `".txt"` has no border: if a string lacks it, the only occurrence in
   * that string followed by `".txt"` is the suffix itself.
   */
  lemma TxtOnlySuffix(s: string)
    requires !Occurs(s, ".txt")
    ensures forall p :: 0 <= p < |s| ==> !OccursAt(s + ".txt", ".txt", p)
  {
    var pat := ".txt";
    forall p | 0 <= p < |s| ensures !OccursAt(s + pat, pat, p) {
      if p + |pat| <= |s| {
        assert (s + pat)[p..p + |pat|] == s[p..p + |pat|];
        assert !OccursAt(s, pat, p);
      } else {
        var j := |s| - p;
        assert (s + pat)[p..p + |pat|][j] == (s + pat)[|s|] == '.';
      }
    }
  }

  /** ASCII `str.lower()` of one character. */
  function LowerChar(c: char): char {
    if 'A' <= c <= 'Z' then (c as int + 32) as char else c
  }

  /** `s.lower()`, for ASCII letters. */
  function Lower(s: string): (r: string)
    ensures |r| == |s|
    ensures forall i :: 0 <= i < |s| ==> r[i] == LowerChar(s[i])
  {
    if s == [] then [] else [LowerChar(s[0])] + Lower(s[1..])
  }

  /** `sep.join(parts)`. */
  function Join(sep: string, parts: seq<string>): string {
    if parts == [] then ""
    else if |parts| == 1 then parts[0]
    else parts[0] + sep + Join(sep, parts[1..])
  }

  /** A character absent from `sep` and from every part is absent from the join. */
  lemma {:induction false} JoinKeepsAbsent(sep: string, parts: seq<string>, c: char)
    requires c !in sep && forall i :: 0 <= i < |parts| ==> c !in parts[i]
    ensures c !in Join(sep, parts)
  {
    if |parts| > 1 {
      JoinKeepsAbsent(sep, parts[1..], c);
    }
  }

  /** `s.rfind(c)`: the position of the last `c` in `s`. */
  function LastIndexOf(s: string, c: char): (r: Option<nat>)
    ensures r.Some? ==> r.value < |s| && s[r.value] == c && c !in s[r.value + 1..]
    ensures r.None? ==> c !in s
  {
    if s == [] then None
    else if s[|s| - 1] == c then Some(|s| - 1)
    else
      var r := LastIndexOf(s[..|s| - 1], c);
      assert r.Some? ==> s[r.value + 1..] == s[..|s| - 1][r.value + 1..] + [s[|s| - 1]];
      assert s == s[..|s| - 1] + [s[|s| - 1]];
      r
  }

  /** The last `c` of `x + [c] + y` is the separator when `y` holds none. */
  lemma {:induction false} LastIndexOfBefore(x: string, c: char, y: string)
    requires c !in y
    ensures LastIndexOf(x + [c] + y, c) == Some(|x|)
    decreases |y|
  {
    var s := x + [c] + y;
    if y != [] {
      var y' := y[..|y| - 1];
      assert s[..|s| - 1] == x + [c] + y';
      LastIndexOfBefore(x, c, y');
    }
  }

  /** `s.replace(c, rep)` leaves a string without `c` as it is. */
  lemma ReplaceAbsent(s: string, c: char, rep: string)
    requires c !in s
    ensures Replace(s, [c], rep) == s
  {
    FirstCharAbsent(s, [], [c]);
    assert s + [] == s;
    ReplacePrefixFree(s, [], [c], rep);
  }

  /** Joining a non-empty list of non-empty parts gives a non-empty string. */
  lemma JoinNonEmpty(sep: string, parts: seq<string>)
    requires parts != [] && parts[0] != ""
    ensures Join(sep, parts) != ""
  {
    if |parts| > 1 {
      assert |Join(sep, parts)| >= |parts[0]|;
    }
  }
}
