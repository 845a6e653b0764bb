/**
  Python's exception-raising control flow, written as values.

  A statement that may raise becomes a function or method returning a
  `Result`; `:-` propagates the exception exactly as an uncaught `raise`
  propagates out of the enclosing Python function.
 */
module Exceptions {

  datatype Option<+T> = None | Some(value: T)

  /** The built-in exceptions the converter scripts can raise. */
  datatype Exception =
    | KeyError(key: string)  // `d[k]` or `del d[k]` on a dict without key k
    | TypeError              // subscript, `del` or iteration on a value that does not support it
    | AttributeError         // `.keys()` on a value that is not a dict
    | IndexError             // `xs[0]` on an empty list
    | ValueError             // `xs.remove(x)` when x is not in xs

  datatype Result<+T> = Ok(value: T) | Raise(error: Exception) {
    predicate IsFailure() { Raise? }

    function PropagateFailure<U>(): Result<U>
      requires Raise?
    {
      Raise(error)
    }

    function Extract(): T
      requires Ok?
    {
      value
    }
  }

  /**
    A Python `for x in xs:` loop whose body computes `f(x)` and may raise:
    the loop stops at the first exception, which propagates.
   */
  function MapAll<A, B>(xs: seq<A>, f: A -> Result<B>): (r: Result<seq<B>>)
    ensures r.Ok? ==> |r.value| == |xs|
  {
    if xs == [] then Ok([])
    else
      var y :- f(xs[0]);
      var ys :- MapAll(xs[1..], f);
      Ok([y] + ys)
  }

  /** The loop succeeds exactly when every iteration does, and keeps count and order. */
  lemma {:induction false} MapAllOk<A, B>(xs: seq<A>, f: A -> Result<B>)
    ensures MapAll(xs, f).Ok? <==> forall i :: 0 <= i < |xs| ==> f(xs[i]).Ok?
    ensures MapAll(xs, f).Ok? ==>
              forall i :: 0 <= i < |xs| ==> MapAll(xs, f).value[i] == f(xs[i]).value
  {
    if xs != [] {
      MapAllOk(xs[1..], f);
      assert forall i :: 1 <= i < |xs| ==> xs[i] == xs[1..][i - 1];
    }
  }

  /** A failing loop raises the exception of its first failing iteration. */
  lemma {:induction false} MapAllFirstRaise<A, B>(xs: seq<A>, f: A -> Result<B>)
    requires MapAll(xs, f).Raise?
    ensures exists i :: 0 <= i < |xs| && f(xs[i]) == Raise(MapAll(xs, f).error) &&
                        forall j :: 0 <= j < i ==> f(xs[j]).Ok?
  {
    if f(xs[0]).Ok? {
      MapAllFirstRaise(xs[1..], f);
      var i :| 0 <= i < |xs[1..]| && f(xs[1..][i]) == Raise(MapAll(xs[1..], f).error) &&
                forall j :: 0 <= j < i ==> f(xs[1..][j]).Ok?;
      assert f(xs[i + 1]) == Raise(MapAll(xs, f).error);
      assert forall j :: 1 <= j < i + 1 ==> xs[j] == xs[1..][j - 1];
    } else {
      assert f(xs[0]) == Raise(MapAll(xs, f).error);
    }
  }

  /**
    Running the loop over `xs + ys` is running it over `xs`, then (if that
    raised nothing) over `ys`: the step a loop invariant over a prefix needs.
   */
  lemma {:induction false} MapAllAppend<A, B>(xs: seq<A>, ys: seq<A>, f: A -> Result<B>)
    ensures MapAll(xs + ys, f) ==
              match MapAll(xs, f)
              case Raise(e) => Raise(e)
              case Ok(a) => (match MapAll(ys, f) case Raise(e) => Raise(e) case Ok(b) => Ok(a + b))
  {
    if xs == [] {
      assert xs + ys == ys;
      if MapAll(ys, f).Ok? {
        assert [] + MapAll(ys, f).value == MapAll(ys, f).value;
      }
    } else {
      assert (xs + ys)[0] == xs[0] && (xs + ys)[1..] == xs[1..] + ys;
      MapAllAppend(xs[1..], ys, f);
      match f(xs[0])
      case Raise(e) =>
      case Ok(y) =>
        match MapAll(xs[1..], f)
        case Raise(e) =>
        case Ok(a) =>
          match MapAll(ys, f)
          case Raise(e) =>
          case Ok(b) => assert [y] + (a + b) == ([y] + a) + b;
    }
  }

  /** Two loop bodies that agree on every element give the same loop. */
  lemma {:induction false} MapAllCongruence<A, B>(xs: seq<A>, f: A -> Result<B>, g: A -> Result<B>)
    requires forall i :: 0 <= i < |xs| ==> f(xs[i]) == g(xs[i])
    ensures MapAll(xs, f) == MapAll(xs, g)
  {
    if xs != [] {
      assert forall i :: 0 <= i < |xs[1..]| ==> xs[1..][i] == xs[i + 1];
      MapAllCongruence(xs[1..], f, g);
    }
  }

  /**
    One iteration of the loop, seen from a loop invariant over the prefix
    `xs[..i]`: either iteration i raises, and so does the whole loop, or it
    extends the prefix's results by one.
   */
  lemma MapAllStep<A, B>(xs: seq<A>, i: nat, f: A -> Result<B>)
    requires i < |xs| && MapAll(xs[..i], f).Ok?
    ensures f(xs[i]).Raise? ==> MapAll(xs, f) == Raise(f(xs[i]).error)
    ensures f(xs[i]).Ok? ==> MapAll(xs[..i + 1], f) == Ok(MapAll(xs[..i], f).value + [f(xs[i]).value])
  {
    MapAllAppend(xs[..i], [xs[i]], f);
    MapAllAppend(xs[..i + 1], xs[i + 1..], f);
    assert xs[..i] + [xs[i]] == xs[..i + 1];
    assert xs[..i + 1] + xs[i + 1..] == xs;
    assert [xs[i]][1..] == [];
    assert MapAll([xs[i]][1..], f) == Ok([]);
    if f(xs[i]).Ok? {
      assert [f(xs[i]).value] + [] == [f(xs[i]).value];
      assert MapAll([xs[i]], f) == Ok([f(xs[i]).value]);
    }
  }
}
