/**
 * The aggregate field-anonymizer visitor: an ordered, append-only list of visitors, and
 * first-match dispatch over it.
 */
module AnonymizerAggregate {
  import opened Wrappers

  /**
   * A field anonymizer visitor as the aggregate sees it: whether it accepts a collected
   * attribute of a content type, and what visiting that attribute yields.
   */
  datatype Visitor<-A, -C, R> = Visitor(accept: (A, C) -> bool, visit: (A, C) -> R)

  /** OutOfBoundsException, with its message. */
  datatype VisitError = OutOfBounds(message: string)

  const NO_VISITOR_MESSAGE: string := "No visitor registered for field anonymization"

  /** The position of the first visitor that accepts, or the list's length when none does. */
  function FirstAccepting<A, C, R>(visitors: seq<Visitor<A, C, R>>, attribute: A, contentType: C): (k: nat)
    ensures k <= |visitors|
    ensures forall j :: 0 <= j < k ==> !visitors[j].accept(attribute, contentType)
    ensures k < |visitors| ==> visitors[k].accept(attribute, contentType)
  {
    if visitors == [] then 0
    else if visitors[0].accept(attribute, contentType) then 0
    else 1 + FirstAccepting(visitors[1..], attribute, contentType)
  }

  /**
   * First-match dispatch: the result of the first accepting visitor, or OutOfBounds when no
   * visitor accepts (in particular when there are none).
   */
  function Dispatch<A, C, R>(visitors: seq<Visitor<A, C, R>>, attribute: A, contentType: C): (r: Result<R, VisitError>)
    ensures r.Failure? <==> forall j :: 0 <= j < |visitors| ==> !visitors[j].accept(attribute, contentType)
    ensures r.Failure? ==> r.error == OutOfBounds(NO_VISITOR_MESSAGE)
    ensures r.Success? ==>
              var k := FirstAccepting(visitors, attribute, contentType);
              k < |visitors| && r.value == visitors[k].visit(attribute, contentType)
  {
    var k := FirstAccepting(visitors, attribute, contentType);
    if k < |visitors| then Success(visitors[k].visit(attribute, contentType))
    else Failure(OutOfBounds(NO_VISITOR_MESSAGE))
  }

  /** Visitors appended after an accepting one are never consulted. */
  lemma {:induction false} FirstAcceptingIgnoresLaterVisitors<A, C, R>(
    visitors: seq<Visitor<A, C, R>>, later: seq<Visitor<A, C, R>>, attribute: A, contentType: C)
    requires FirstAccepting(visitors, attribute, contentType) < |visitors|
    ensures FirstAccepting(visitors + later, attribute, contentType) == FirstAccepting(visitors, attribute, contentType)
  {
    if !visitors[0].accept(attribute, contentType) {
      assert (visitors + later)[1..] == visitors[1..] + later;
      FirstAcceptingIgnoresLaterVisitors(visitors[1..], later, attribute, contentType);
    }
  }

  /** Registering more visitors never changes a dispatch that already succeeds. */
  lemma DispatchIgnoresLaterVisitors<A, C, R>(
    visitors: seq<Visitor<A, C, R>>, later: seq<Visitor<A, C, R>>, attribute: A, contentType: C)
    requires Dispatch(visitors, attribute, contentType).Success?
    ensures Dispatch(visitors + later, attribute, contentType) == Dispatch(visitors, attribute, contentType)
  {
    FirstAcceptingIgnoresLaterVisitors(visitors, later, attribute, contentType);
  }

  class Aggregate<A, C, R> {
    var visitors: seq<Visitor<A, C, R>>

    /** Registers the given visitors (none by default) one by one, in order. */
    constructor(initial: seq<Visitor<A, C, R>> := [])
      ensures visitors == initial
    {
      visitors := [];
      new;
      for i := 0 to |initial|
        invariant visitors == initial[..i]
      {
        AddVisitor(initial[i]);
        assert initial[..i + 1] == initial[..i] + [initial[i]];
      }
      assert initial[..|initial|] == initial;
    }

    /** Appends a visitor after all those already registered. */
    method AddVisitor(visitor: Visitor<A, C, R>)
      modifies this
      ensures visitors == old(visitors) + [visitor]
    {
      visitors := visitors + [visitor];
    }

    /** The aggregate itself accepts every attribute. */
    function Accept(attribute: A, contentType: C): (accepted: bool)
      ensures accepted
    {
      true
    }

    /** Visits with the first registered visitor that accepts, and changes nothing. */
    method Visit(attribute: A, contentType: C) returns (r: Result<R, VisitError>)
      ensures r == Dispatch(visitors, attribute, contentType)
    {
      for i := 0 to |visitors|
        invariant forall j :: 0 <= j < i ==> !visitors[j].accept(attribute, contentType)
      {
        if visitors[i].accept(attribute, contentType) {
          return Success(visitors[i].visit(attribute, contentType));
        }
      }
      return Failure(OutOfBounds(NO_VISITOR_MESSAGE));
    }
  }
}
