/** Small sequence helpers shared by the traversal and the cursor. */
module Lists {
  import opened Wrappers

  function Last<T>(s: seq<T>): T
    requires s != []
  {
    s[|s| - 1]
  }

  function Init<T>(s: seq<T>): seq<T>
    requires s != []
  {
    s[..|s| - 1]
  }

  /** `s.pop()` leaves `Init(s)` and returns `Last(s)`, an element of `s`. */
  lemma InitLast<T>(s: seq<T>)
    requires s != []
    ensures s == Init(s) + [Last(s)] && Last(s) in s
    ensures forall x :: x in Init(s) ==> x in s
  {
  }

  /** The values `f` yields for the elements of `s`, in order, skipping the elements
      it rejects: a loop that appends inside `try`, with failures skipped. */
  function FilterMap<T, U>(s: seq<T>, f: T -> Option<U>): (r: seq<U>)
    ensures |r| <= |s|
  {
    if s == [] then []
    else
      match f(Last(s))
      case Some(v) => FilterMap(Init(s), f) + [v]
      case None => FilterMap(Init(s), f)
  }

  /** One more element through the loop: its value is appended, or it is skipped. */
  lemma FilterMapStep<T, U>(s: seq<T>, f: T -> Option<U>, i: nat)
    requires i < |s|
    ensures FilterMap(s[..i + 1], f) == FilterMap(s[..i], f) + (if f(s[i]).Some? then [f(s[i]).value] else [])
  {
    assert Init(s[..i + 1]) == s[..i];
  }

  lemma {:induction false} FilterMapHas<T, U>(s: seq<T>, f: T -> Option<U>, v: U)
    ensures v in FilterMap(s, f) <==> exists i :: 0 <= i < |s| && f(s[i]) == Some(v)
    decreases |s|
  {
    if s != [] {
      var init := Init(s);
      FilterMapHas(init, f, v);
      if v in FilterMap(init, f) {
        var i :| 0 <= i < |init| && f(init[i]) == Some(v);
        assert s[i] == init[i];
      }
      if i :| 0 <= i < |s| && f(s[i]) == Some(v) {
        if i < |init| {
          assert init[i] == s[i];
        }
      }
    }
  }
}
