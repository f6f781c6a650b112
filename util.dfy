/** The `util` package: limits, the `Resource` status wrapper and the one-shot `Event`. */
module Util {
  import opened Wrappers

  /** Limits on the add-item form; both are positive. */
  const MAX_NAME_LENGTH: nat := 20
  const MAX_PRICE_LENGTH: nat := 10

  datatype Status = SUCCESS | ERROR | LOADING

  /** A value together with the state of the operation that produced it. */
  datatype Resource<+T> = Resource(status: Status, data: Option<T>, message: Option<string>)

  function Success<T>(data: T): Resource<T> {
    Resource(SUCCESS, Some(data), None)
  }

  function Error<T>(message: string, data: Option<T>): Resource<T> {
    Resource(ERROR, data, Some(message))
  }

  function Loading<T>(data: Option<T>): Resource<T> {
    Resource(LOADING, data, None)
  }

  /**
   * A value delivered through an observable that must be consumed once:
   * `GetContentIfNotHandled` hands the content out the first time only,
   * `PeekContent` always.
   */
  class Event<T> {
    const content: T
    var hasBeenHandled: bool

    constructor (content: T)
      ensures this.content == content && !hasBeenHandled
    {
      this.content := content;
      hasBeenHandled := false;
    }

    method GetContentIfNotHandled() returns (r: Option<T>)
      modifies this
      ensures hasBeenHandled
      ensures r == if old(hasBeenHandled) then None else Some(content)
    {
      if hasBeenHandled {
        r := None;
      } else {
        hasBeenHandled := true;
        r := Some(content);
      }
    }

    /** The content, whether or not it has been handled; reading it changes nothing. */
    function PeekContent(): (r: T)
      ensures r == content
    {
      content
    }
  }

  /** A fresh event yields its content to the first consumer and nothing to every later one. */
  method HandleEventTwice<T>(content: T) returns (first: Option<T>, second: Option<T>, peeked: T)
    ensures first == Some(content) && second == None && peeked == content
  {
    var e := new Event(content);
    first := e.GetContentIfNotHandled();
    second := e.GetContentIfNotHandled();
    peeked := e.PeekContent();
  }
}
