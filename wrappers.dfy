/** Optional values and results, used wherever the source returns `null`, `undefined` or raises. */
module Wrappers {

  datatype Option<+T> = None | Some(value: T)
  {
    function GetOr(default: T): T
    {
      match this
      case Some(v) => v
      case None => default
    }

    predicate IsFailure()
    {
      None?
    }

    function PropagateFailure<U>(): Option<U>
      requires None?
    {
      None
    }

    function Extract(): T
      requires Some?
    {
      value
    }
  }

  datatype Result<+T, +E> = Ok(value: T) | Err(error: E)

  /** `Some(done + xs)` when `rest` is `Some(xs)`. */
  function Prepend<T>(done: seq<T>, rest: Option<seq<T>>): Option<seq<T>>
  {
    if rest.Some? then Some(done + rest.value) else None
  }

  /** All the values, in order, or `None` as soon as one of them is missing (a loop that throws). */
  function Collect<T>(os: seq<Option<T>>): Option<seq<T>>
  {
    if os == [] then Some([])
    else if os[0].None? then None
    else Prepend([os[0].value], Collect(os[1..]))
  }

  lemma {:induction false} CollectNone<T>(os: seq<Option<T>>)
    ensures Collect(os).None? <==> exists k :: 0 <= k < |os| && os[k].None?
  {
    if os != [] {
      CollectNone(os[1..]);
      if exists k :: 1 <= k < |os| && os[k].None? {
        var k :| 1 <= k < |os| && os[k].None?;
        assert os[1..][k - 1].None?;
      }
      if exists k :: 0 <= k < |os[1..]| && os[1..][k].None? {
        var k :| 0 <= k < |os[1..]| && os[1..][k].None?;
        assert os[k + 1].None?;
      }
    }
  }

  lemma {:induction false} CollectSome<T>(os: seq<Option<T>>)
    requires Collect(os).Some?
    ensures |Collect(os).value| == |os|
    ensures forall k :: 0 <= k < |os| ==> os[k] == Some(Collect(os).value[k])
  {
    if os != [] {
      CollectSome(os[1..]);
      var xs := [os[0].value] + Collect(os[1..]).value;
      assert Collect(os).value == xs;
      forall k | 1 <= k < |os|
        ensures os[k] == Some(xs[k])
      {
        assert os[k] == os[1..][k - 1];
      }
    }
  }

  /** One step of a loop that collects the values of `os` into `done`, stopping at a missing one. */
  lemma CollectStep<T>(os: seq<Option<T>>, i: nat, done: seq<T>, o: Option<T>)
    requires i < |os| && o == os[i]
    ensures o.None? ==> Collect(os[i..]).None?
    ensures o.Some? ==> Prepend(done, Collect(os[i..])) == Prepend(done + [o.value], Collect(os[i + 1..]))
  {
    assert os[i..][1..] == os[i + 1..];
    var rest := Collect(os[i + 1..]);
    if o.Some? && rest.Some? {
      assert done + ([o.value] + rest.value) == (done + [o.value]) + rest.value;
    }
  }

  lemma CollectStart<T>(os: seq<Option<T>>)
    ensures Collect(os) == Prepend([], Collect(os[0..]))
  {
    assert os[0..] == os;
    if Collect(os).Some? {
      assert [] + Collect(os).value == Collect(os).value;
    }
  }

  lemma CollectEnd<T>(os: seq<Option<T>>, done: seq<T>)
    ensures Prepend(done, Collect(os[|os|..])) == Some(done)
  {
    assert os[|os|..] == [];
    assert done + [] == done;
  }
}
