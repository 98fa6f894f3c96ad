/** Vocabulary shared by the models: optional values, handler results, and filtered sequences. */
module Common {

  datatype Option<+T> = None | Some(value: T)

  /** The HTTP-mapped exceptions the handlers throw; `Invalid` is a plain thrown Error. */
  datatype Error = Invalid | BadRequest | Forbidden | NotFound | Conflict

  datatype Result<+T> = Ok(value: T) | Err(error: Error)

  /** A transaction ends as specified, or is rolled back with the specified refusal. */
  ghost predicate Ended<T>(before: T, specified: Result<T>, after: T, refusal: Option<Error>) {
    match specified
    case Ok(next) => after == next && refusal == None
    case Err(e) => after == before && refusal == Some(e)
  }

  function Abs(x: int): int { if x < 0 then -x else x }

  predicate NoDup<T(==)>(s: seq<T>) {
    forall i, j :: 0 <= i < j < |s| ==> s[i] != s[j]
  }

  function Filter<T>(s: seq<T>, keep: T -> bool): seq<T> {
    if s == [] then []
    else if keep(s[0]) then [s[0]] + Filter(s[1..], keep)
    else Filter(s[1..], keep)
  }

  lemma {:induction false} FilterConcat<T>(s: seq<T>, t: seq<T>, keep: T -> bool)
    ensures Filter(s + t, keep) == Filter(s, keep) + Filter(t, keep)
  {
    if s == [] {
      assert s + t == t;
    } else {
      assert (s + t)[1..] == s[1..] + t;
      FilterConcat(s[1..], t, keep);
      assert (s + t)[0] == s[0];
      var rest, after := Filter(s[1..], keep), Filter(t, keep);
      assert keep(s[0]) ==> [s[0]] + (rest + after) == ([s[0]] + rest) + after;
    }
  }

  lemma {:induction false} FilterMember<T>(s: seq<T>, keep: T -> bool, x: T)
    ensures x in Filter(s, keep) <==> x in s && keep(x)
  {
    if s != [] {
      FilterMember(s[1..], keep, x);
      assert s == [s[0]] + s[1..];
    }
  }

  lemma {:induction false} FilterNoDup<T>(s: seq<T>, keep: T -> bool)
    requires NoDup(s)
    ensures NoDup(Filter(s, keep))
  {
    if s != [] {
      FilterNoDup(s[1..], keep);
      FilterMember(s[1..], keep, s[0]);
    }
  }

  lemma {:induction false} FilterAll<T>(s: seq<T>, keep: T -> bool)
    requires forall x :: x in s ==> keep(x)
    ensures Filter(s, keep) == s
  {
    if s != [] {
      FilterAll(s[1..], keep);
    }
  }

  lemma {:induction false} FilterNone<T>(s: seq<T>, keep: T -> bool)
    requires forall x :: x in s ==> !keep(x)
    ensures Filter(s, keep) == []
  {
    if s != [] {
      FilterNone(s[1..], keep);
    }
  }

  /** Equal predicates filter alike. */
  lemma {:induction false} FilterSame<T>(s: seq<T>, p: T -> bool, q: T -> bool)
    requires forall x :: x in s ==> p(x) == q(x)
    ensures Filter(s, p) == Filter(s, q)
  {
    if s != [] {
      FilterSame(s[1..], p, q);
    }
  }
}
