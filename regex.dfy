/** The two ways the renamer uses Python's `re` module, over explicit matchers.

    A matcher looks at a whole string and a start position and says whether its pattern matches
    there (and what it captures). `re.search` is then the leftmost position with a match, and
    `re.sub` is one left-to-right pass that replaces each match and resumes after it, without
    ever looking at its own output again. None of the patterns modelled here can match the empty
    string. */
module Regex {
  import opened Text

  datatype Option<T> = None | Some(value: T)

  /** A pattern tried at one position: the end of the match, if it matches there. */
  type Matcher = (string, nat) -> Option<nat>

  /** `re.sub(pattern, repl, s)`: replace every leftmost, non-overlapping match by `repl`. */
  function Sub(s: string, m: Matcher, repl: string): string {
    SubFrom(s, 0, m, repl)
  }

  function SubFrom(s: string, i: nat, m: Matcher, repl: string): string
    decreases |s| - i
  {
    if i >= |s| then []
    else
      var r := m(s, i);
      if r.Some? && i < r.value <= |s| then repl + SubFrom(s, r.value, m, repl)
      else [s[i]] + SubFrom(s, i + 1, m, repl)
  }

  /** The leftmost position at or after `i` where `m` matches (`re.search` tries every start
      position from left to right, including the end of the string). */
  function FirstMatchPos<T>(s: string, i: nat, m: (string, nat) -> Option<T>): (r: Option<nat>)
    ensures r.Some? ==> i <= r.value <= |s| && m(s, r.value).Some?
    ensures r.Some? ==> forall j :: i <= j < r.value ==> m(s, j).None?
    ensures r.None? ==> forall j :: i <= j <= |s| ==> m(s, j).None?
    decreases |s| + 1 - i
  {
    if i > |s| then None
    else if m(s, i).Some? then Some(i)
    else FirstMatchPos(s, i + 1, m)
  }

  /** `re.search(pattern, s)`: what the pattern yields at its leftmost match. */
  function Search<T>(s: string, m: (string, nat) -> Option<T>): (r: Option<T>)
    ensures r.None? <==> forall j :: 0 <= j <= |s| ==> m(s, j).None?
  {
    match FirstMatchPos(s, 0, m)
    case Some(k) => m(s, k)
    case None => None
  }

  /** `Search` finds the match at `k` when nothing matches further left. */
  lemma SearchFindsFirst<T>(s: string, m: (string, nat) -> Option<T>, k: nat)
    requires k <= |s| && m(s, k).Some?
    requires forall j :: 0 <= j < k ==> m(s, j).None?
    ensures FirstMatchPos(s, 0, m) == Some(k)
    ensures Search(s, m) == m(s, k)
  {
    var r := FirstMatchPos(s, 0, m);
    assert r.Some?;
  }

  /** A case-sensitive literal pattern. */
  function Lit(lit: string): Matcher {
    (s: string, i: nat) => if OccursAt(s, i, lit) then Some(i + |lit|) else None
  }

  /** A literal pattern compiled with `re.IGNORECASE`. */
  function LitCI(lit: string): Matcher {
    (s: string, i: nat) => if OccursAtCI(s, i, lit) then Some(i + |lit|) else None
  }

  /** `\blit\b` compiled with `re.IGNORECASE`. */
  function WordCI(lit: string): Matcher {
    (s: string, i: nat) =>
      if AtWordBoundary(s, i) && OccursAtCI(s, i, lit) && AtWordBoundary(s, i + |lit|)
      then Some(i + |lit|) else None
  }

  /** `a` is `b` with some characters deleted (and none added or reordered). */
  predicate Deletes(a: string, b: string)
    decreases |b|
  {
    if |a| == 0 then true
    else if |b| == 0 then false
    else (a[0] == b[0] && Deletes(a[1..], b[1..])) || Deletes(a, b[1..])
  }

  lemma {:induction false} DeletesRefl(a: string)
    ensures Deletes(a, a)
    decreases |a|
  {
    if |a| > 0 { DeletesRefl(a[1..]); }
  }

  lemma {:induction false} DeletesTrans(a: string, b: string, c: string)
    requires Deletes(a, b) && Deletes(b, c)
    ensures Deletes(a, c)
    decreases |c|
  {
    if |a| > 0 && |c| > 0 {
      if Deletes(b, c[1..]) {
        DeletesTrans(a, b, c[1..]);
      } else {
        assert b[0] == c[0] && Deletes(b[1..], c[1..]);
        if a[0] == b[0] && Deletes(a[1..], b[1..]) {
          DeletesTrans(a[1..], b[1..], c[1..]);
        } else {
          DeletesTrans(a, b[1..], c[1..]);
        }
      }
    }
  }

  lemma {:induction false} DeletesSuffix(a: string, s: string, i: nat)
    requires i <= |s| && Deletes(a, s[i..])
    ensures Deletes(a, s)
    decreases i
  {
    if i > 0 {
      assert s[i - 1..][1..] == s[i..];
      DeletesSuffix(a, s, i - 1);
    }
  }

  /** A substitution that only ever removes what it matches only deletes characters. */
  lemma {:induction false} SubFromDeletes(s: string, i: nat, m: Matcher)
    requires i <= |s|
    ensures Deletes(SubFrom(s, i, m, ""), s[i..])
    decreases |s| - i
  {
    if i < |s| {
      var r := m(s, i);
      if r.Some? && i < r.value <= |s| {
        SubFromDeletes(s, r.value, m);
        assert SubFrom(s, i, m, "") == SubFrom(s, r.value, m, "");
        assert s[i..][r.value - i..] == s[r.value..];
        DeletesSuffix(SubFrom(s, r.value, m, ""), s[i..], r.value - i);
      } else {
        SubFromDeletes(s, i + 1, m);
        var o := SubFrom(s, i, m, "");
        assert o == [s[i]] + SubFrom(s, i + 1, m, "");
        assert o[1..] == SubFrom(s, i + 1, m, "");
        assert s[i..][1..] == s[i + 1..];
      }
    }
  }

  lemma SubDeletes(s: string, m: Matcher)
    ensures Deletes(Sub(s, m, ""), s)
  {
    SubFromDeletes(s, 0, m);
    assert s[0..] == s;
  }

  /** With no match anywhere from `i` on, a substitution leaves the rest unchanged. */
  lemma {:induction false} SubFromNoMatch(s: string, i: nat, m: Matcher, repl: string)
    requires i <= |s|
    requires forall j :: i <= j < |s| ==> m(s, j).None?
    ensures SubFrom(s, i, m, repl) == s[i..]
    decreases |s| - i
  {
    if i < |s| {
      SubFromNoMatch(s, i + 1, m, repl);
      assert s[i..] == [s[i]] + s[i + 1..];
    }
  }
  /** With exactly one match from `i` on, at `p` and ending at `q`, a substitution replaces
      that match and keeps everything around it. */
  lemma {:induction false} SubFromSingleMatch(s: string, i: nat, m: Matcher, repl: string, p: nat, q: nat)
    requires i <= p < q <= |s| && m(s, p) == Some(q)
    requires forall j :: i <= j < p ==> m(s, j).None?
    requires forall j :: q <= j < |s| ==> m(s, j).None?
    ensures SubFrom(s, i, m, repl) == s[i..p] + repl + s[q..]
    decreases p - i
  {
    if i == p {
      SubFromNoMatch(s, q, m, repl);
      assert SubFrom(s, i, m, repl) == repl + SubFrom(s, q, m, repl);
      assert s[i..p] == [];
    } else {
      SubFromSingleMatch(s, i + 1, m, repl, p, q);
      assert m(s, i).None?;
      assert SubFrom(s, i, m, repl) == [s[i]] + SubFrom(s, i + 1, m, repl);
      assert s[i..p] == [s[i]] + s[i + 1..p];
    }
  }

  lemma SubSingleMatch(s: string, m: Matcher, repl: string, p: nat, q: nat)
    requires p < q <= |s| && m(s, p) == Some(q)
    requires forall j :: 0 <= j < p ==> m(s, j).None?
    requires forall j :: q <= j < |s| ==> m(s, j).None?
    ensures Sub(s, m, repl) == s[..p] + repl + s[q..]
  {
    SubFromSingleMatch(s, 0, m, repl, p, q);
    assert s[0..p] == s[..p];
  }

  /** With no match anywhere, a substitution changes nothing. */
  lemma SubNoMatch(s: string, m: Matcher, repl: string)
    requires forall j :: 0 <= j < |s| ==> m(s, j).None?
    ensures Sub(s, m, repl) == s
  {
    SubFromNoMatch(s, 0, m, repl);
    assert s[0..] == s;
  }
}
