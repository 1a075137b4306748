/**
 Searching and joining text: the first place where one text occurs in another from a given place on,
 what that search has to do with prefixes and suffixes of the text searched, and joining a series of
 texts into one.  Framing and parsing are both built on it.
 */
module Text {
  import opened Prelude

  predicate IsBlank(c: char) { c == ' ' || 9 <= c as int <= 13 }

  predicate Occurs(s: string, pat: string, i: int) { 0 <= i <= i + |pat| <= |s| && s[i..i + |pat|] == pat }

  /** The first occurrence at or after `from`. */
  function Find(s: string, pat: string, from: nat): (r: Option<nat>)
    ensures r.Some? ==> from <= r.value <= r.value + |pat| <= |s|
    decreases |s| - from
  {
    if from + |pat| > |s| then None
    else if Occurs(s, pat, from) then Some(from)
    else Find(s, pat, from + 1)
  }

  lemma {:induction false} FindIsFirst(s: string, pat: string, from: nat)
    ensures var r := Find(s, pat, from);
            && (r.Some? ==> Occurs(s, pat, r.value) && forall j | from <= j < r.value :: !Occurs(s, pat, j))
            && (r.None? ==> forall j | from <= j :: !Occurs(s, pat, j))
    decreases |s| - from
  {
    hide Occurs;
    if from + |pat| <= |s| && !Occurs(s, pat, from) {
      FindIsFirst(s, pat, from + 1);
    } else {
      TooLate(s, pat, from);
    }
  }

  lemma TooLate(s: string, pat: string, from: nat)
    ensures from + |pat| > |s| ==> forall j | from <= j :: !Occurs(s, pat, j)
  {
  }

  lemma FindUnique(s: string, pat: string, from: nat, i: nat)
    requires from <= i && Occurs(s, pat, i) && forall j | from <= j < i :: !Occurs(s, pat, j)
    ensures Find(s, pat, from) == Some(i)
  {
    FindIsFirst(s, pat, from);
  }

  ghost predicate Contains(s: string, pat: string) { exists i :: Occurs(s, pat, i) }

  lemma OccursShifted(s: string, pat: string, k: nat, i: int)
    requires k <= |s| && i >= 0
    ensures Occurs(s[k..], pat, i) <==> Occurs(s, pat, i + k)
  {
    if 0 <= i <= i + |pat| <= |s| - k {
      assert s[k..][i..i + |pat|] == s[i + k..i + k + |pat|];
    }
  }

  lemma {:induction false} FindShifted(s: string, pat: string, k: nat, from: nat)
    requires k <= |s|
    ensures Find(s, pat, k + from) == match Find(s[k..], pat, from) case None => None case Some(i) => Some(i + k)
    decreases |s| - from
  {
    OccursShifted(s, pat, k, from);
    hide Occurs;
    if k + from + |pat| <= |s| && !Occurs(s, pat, k + from) {
      FindShifted(s, pat, k, from + 1);
    }
  }

  /** An occurrence that ends inside `a` is the same occurrence in any text that starts with `a`. */
  lemma OccursPrefix(a: string, b: string, pat: string, i: int)
    requires i + |pat| <= |a|
    ensures Occurs(a + b, pat, i) <==> Occurs(a, pat, i)
  {
    if i >= 0 {
      assert (a + b)[i..i + |pat|] == a[i..i + |pat|];
    }
  }

  lemma FindPrefix(a: string, b: string, pat: string, from: nat)
    requires Find(a, pat, from).Some?
    ensures Find(a + b, pat, from) == Find(a, pat, from)
  {
    hide Occurs, Find;
    var i := Find(a, pat, from).value;
    FindIsFirst(a, pat, from);
    OccursPrefix(a, b, pat, i);
    forall j | from <= j < i
      ensures !Occurs(a + b, pat, j)
    {
      OccursPrefix(a, b, pat, j);
    }
    FindUnique(a + b, pat, from, i);
  }

  function Concat(parts: seq<string>): string {
    if parts == [] then "" else parts[0] + Concat(parts[1..])
  }

  lemma Associative(a: string, b: string, c: string)
    ensures a + b + c == a + (b + c)
  {
  }

  lemma NothingToConcat()
    ensures Concat([]) == ""
  {
  }

  lemma ConcatCons(first: string, rest: seq<string>)
    ensures Concat([first] + rest) == first + Concat(rest)
  {
    assert ([first] + rest)[1..] == rest;
  }
}
