/**
 * The few Python string operations the database configuration uses:
 * `str.startswith`, the `in` operator on strings, `str.split(sep)[0]`
 * and `str.replace`, each with Python's semantics.
 */
module Text {
  import opened Wrappers

  /** `s.startswith(p)`: `s` is at least as long as `p` and agrees with it character by character. */
  predicate StartsWith(s: string, p: string)
    ensures StartsWith(s, p) <==> |p| <= |s| && forall i | 0 <= i < |p| :: s[i] == p[i]
  {
    |p| <= |s| && s[..|p|] == p
  }

  /** `p` occurs in `s` starting at index `i`. */
  ghost predicate OccursAt(s: string, p: string, i: int) {
    0 <= i && i + |p| <= |s| && s[i..i + |p|] == p
  }

  /** `p` occurs somewhere in `s`. */
  ghost predicate Occurs(s: string, p: string) {
    exists i :: OccursAt(s, p, i)
  }

  /** The first occurrence of `p` in `s` starts at index `i`. */
  ghost predicate FirstAt(s: string, p: string, i: int) {
    OccursAt(s, p, i) && forall j :: 0 <= j < i ==> !OccursAt(s, p, j)
  }

  lemma OccursAtStart(s: string, p: string)
    ensures OccursAt(s, p, 0) <==> StartsWith(s, p)
  {
  }

  lemma OccursShift(s: string, p: string, i: int)
    requires |s| > 0 && 0 <= i
    ensures OccursAt(s[1..], p, i) <==> OccursAt(s, p, i + 1)
  {
  }

  /** When `s` does not start with `p`, every occurrence lies in its tail. */
  lemma OccursInTail(s: string, p: string)
    requires |s| > 0 && !StartsWith(s, p)
    ensures Occurs(s, p) <==> Occurs(s[1..], p)
  {
    OccursAtStart(s, p);
    if Occurs(s, p) {
      var j :| OccursAt(s, p, j);
      OccursShift(s, p, j - 1);
    }
    if Occurs(s[1..], p) {
      var j :| OccursAt(s[1..], p, j);
      OccursShift(s, p, j);
    }
  }

  /** An occurrence inside a prefix of `s` is an occurrence in `s`. */
  lemma OccursInPrefix(s: string, k: nat, p: string, i: int)
    requires k <= |s|
    requires OccursAt(s[..k], p, i)
    ensures OccursAt(s, p, i) && i + |p| <= k
  {
  }

  /** The index of the first occurrence of `p` in `s`, if there is one. */
  function IndexOf(s: string, p: string): (r: Option<nat>)
    ensures r.Some? ==> FirstAt(s, p, r.value)
    ensures r.None? <==> !Occurs(s, p)
    decreases |s|
  {
    if |s| < |p| then
      None
    else if StartsWith(s, p) then
      OccursAtStart(s, p);
      Some(0)
    else
      OccursInTail(s, p);
      match IndexOf(s[1..], p)
      case Some(i) =>
        OccursShift(s, p, i);
        OccursAtStart(s, p);
        assert forall j :: 1 <= j < i + 1 ==> !OccursAt(s, p, j) by {
          forall j | 1 <= j < i + 1 ensures !OccursAt(s, p, j) {
            OccursShift(s, p, j - 1);
          }
        }
        Some(i + 1)
      case None =>
        None
  }

  /** `p in s`. */
  function Contains(s: string, p: string): (b: bool)
    ensures b <==> Occurs(s, p)
  {
    IndexOf(s, p).Some?
  }

  /** `s.split(sep)[0]`: the text before the first `sep`, or all of `s` when there is none. */
  function Before(s: string, sep: string): (r: string)
    requires sep != []
    ensures StartsWith(s, r)
    ensures !Occurs(r, sep)
    ensures Occurs(s, sep) ==> FirstAt(s, sep, |r|)
    ensures !Occurs(s, sep) ==> r == s
  {
    match IndexOf(s, sep)
    case None => s
    case Some(i) =>
      assert !Occurs(s[..i], sep) by {
        forall j | OccursAt(s[..i], sep, j) ensures false {
          OccursInPrefix(s, i, sep, j);
        }
      }
      s[..i]
  }

  /**
   * `s.replace(pat, rep)`: scanning left to right, every occurrence of `pat`
   * that does not overlap an earlier replaced one becomes `rep`. An empty
   * `pat` matches before every character and at the end.
   */
  function ReplaceAll(s: string, pat: string, rep: string): (r: string)
    ensures pat != [] && !Occurs(s, pat) ==> r == s
    decreases |s|
  {
    if pat != [] && StartsWith(s, pat) then
      OccursAtStart(s, pat);
      rep + ReplaceAll(s[|pat|..], pat, rep)
    else if s == [] then
      (if pat == [] then rep else [])
    else
      assert pat != [] ==> (Occurs(s, pat) <==> Occurs(s[1..], pat)) by {
        if pat != [] { OccursInTail(s, pat); }
      }
      (if pat == [] then rep else []) + [s[0]] + ReplaceAll(s[1..], pat, rep)
  }

  /** A string that starts with `pat` is rewritten to one that starts with `rep`, followed by the rewritten rest. */
  lemma ReplaceAllAtStart(s: string, pat: string, rep: string)
    requires pat != [] && StartsWith(s, pat)
    ensures ReplaceAll(s, pat, rep) == rep + ReplaceAll(s[|pat|..], pat, rep)
    ensures StartsWith(ReplaceAll(s, pat, rep), rep)
  {
  }

  /**
   * Replacing by something longer never shortens a string, and lengthens it
   * as soon as `pat` occurs: every occurrence found is replaced, not only a
   * leading one.
   */
  lemma {:induction false} ReplaceAllGrows(s: string, pat: string, rep: string)
    requires pat != [] && |rep| >= |pat|
    ensures |ReplaceAll(s, pat, rep)| >= |s|
    ensures |rep| > |pat| && Occurs(s, pat) ==> |ReplaceAll(s, pat, rep)| > |s|
    decreases |s|
  {
    if StartsWith(s, pat) {
      OccursAtStart(s, pat);
      ReplaceAllGrows(s[|pat|..], pat, rep);
    } else if s != [] {
      OccursInTail(s, pat);
      ReplaceAllGrows(s[1..], pat, rep);
    }
  }

  /** `[c] + r` starts with a non-empty `p` just when `c` is its first character and `r` starts with the rest. */
  lemma StartsWithCons(c: char, r: string, p: string)
    requires p != []
    ensures StartsWith([c] + r, p) <==> c == p[0] && StartsWith(r, p[1..])
  {
    if StartsWith(r, p[1..]) {
      assert ([c] + r)[..|p|] == [c] + r[..|p| - 1];
    }
    if StartsWith([c] + r, p) {
      assert r[..|p| - 1] == ([c] + r)[1..|p|];
    }
  }

  /** An occurrence in `x + y` that starts after `x` is an occurrence in `y`. */
  lemma OccursInRight(x: string, y: string, p: string, i: int)
    requires OccursAt(x + y, p, i) && i >= |x|
    ensures OccursAt(y, p, i - |x|)
  {
    assert (x + y)[i..i + |p|] == y[i - |x|..i - |x| + |p|];
  }

  /** A window of `x + y` that starts inside `x` and ends past it begins with the rest of `x`. */
  lemma StraddleBegins(x: string, y: string, i: int, j: int)
    requires 0 <= i <= |x| <= j <= |x + y|
    ensures StartsWith((x + y)[i..j], x[i..])
  {
    forall k | 0 <= k < |x| - i ensures (x + y)[i..j][k] == x[i..][k] {
      assert (x + y)[i + k] == x[i + k];
    }
  }

  /** An occurrence in `x + y` that ends within `x` is an occurrence in `x`. */
  lemma OccursInLeft(x: string, y: string, p: string, i: int)
    requires OccursAt(x + y, p, i) && i + |p| <= |x|
    ensures OccursAt(x, p, i)
  {
    assert (x + y)[i..i + |p|] == x[i..i + |p|];
  }

  /**
   * When the first character of `rep` does not appear in `q`, the result of
   * the replacement can start with `q` only if the input already did: text
   * made of `rep` can never supply the beginning of `q`.
   */
  lemma {:induction false} ReplaceAllKeepsPrefix(t: string, q: string, pat: string, rep: string)
    requires pat != [] && rep != [] && rep[0] !in q
    ensures StartsWith(ReplaceAll(t, pat, rep), q) ==> StartsWith(t, q)
    decreases |t|
  {
    var out := ReplaceAll(t, pat, rep);
    if q != [] {
      if StartsWith(t, pat) {
        assert out[0] == rep[0] != q[0];
      } else if t != [] {
        var rest := ReplaceAll(t[1..], pat, rep);
        assert out == [t[0]] + rest;
        ReplaceAllKeepsPrefix(t[1..], q[1..], pat, rep);
        if StartsWith(out, q) {
          assert rest[..|q| - 1] == out[1..|q|] == q[1..];
          assert t[..|q|] == [t[0]] + t[1..][..|q| - 1];
        }
      }
    }
  }

  /**
   * `s.replace(pat, rep)` leaves no occurrence of `pat` behind, provided
   * `rep` cannot recreate one: `rep` does not contain `pat`, no tail of
   * `rep` is a beginning of `pat`, and the first character of `rep` does
   * not appear after the first character of `pat`.
   */
  lemma {:induction false} ReplaceAllLeavesNoPattern(s: string, pat: string, rep: string)
    requires pat != [] && rep != [] && rep[0] !in pat[1..]
    requires !Occurs(rep, pat)
    requires forall i | 0 <= i < |rep| && |rep| - i < |pat| :: !StartsWith(pat, rep[i..])
    ensures !Occurs(ReplaceAll(s, pat, rep), pat)
    decreases |s|
  {
    var out := ReplaceAll(s, pat, rep);
    if StartsWith(s, pat) {
      var rest := ReplaceAll(s[|pat|..], pat, rep);
      assert out == rep + rest;
      ReplaceAllLeavesNoPattern(s[|pat|..], pat, rep);
      forall i | 0 <= i ensures !OccursAt(out, pat, i) {
        if i >= |rep| {
          if OccursAt(out, pat, i) {
            OccursInRight(rep, rest, pat, i);
          }
        } else if i + |pat| <= |rep| {
          if OccursAt(out, pat, i) {
            OccursInLeft(rep, rest, pat, i);
          }
        } else if i + |pat| <= |out| {
          StraddleBegins(rep, rest, i, i + |pat|);
          assert !StartsWith(pat, rep[i..]);
        }
      }
    } else if s != [] {
      var rest := ReplaceAll(s[1..], pat, rep);
      assert out == [s[0]] + rest;
      ReplaceAllLeavesNoPattern(s[1..], pat, rep);
      ReplaceAllKeepsPrefix(s[1..], pat[1..], pat, rep);
      forall i | 0 <= i ensures !OccursAt(out, pat, i) {
        if i >= 1 {
          if OccursAt(out, pat, i) {
            OccursInRight([s[0]], rest, pat, i);
          }
        } else {
          OccursAtStart(out, pat);
          StartsWithCons(s[0], rest, pat);
          StartsWithCons(s[0], s[1..], pat);
        }
      }
    }
  }

  /** Replacing a non-empty pattern by itself changes nothing. */
  lemma {:induction false} ReplaceAllSelf(s: string, pat: string)
    requires pat != []
    ensures ReplaceAll(s, pat, pat) == s
    decreases |s|
  {
    if StartsWith(s, pat) {
      ReplaceAllSelf(s[|pat|..], pat);
      assert s == pat + s[|pat|..];
    } else if s != [] {
      ReplaceAllSelf(s[1..], pat);
      assert s == [s[0]] + s[1..];
    }
  }
}
