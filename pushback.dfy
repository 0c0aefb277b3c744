/**
 * PushBackIterator: an iterator over a wrapped iterator, with a FIFO queue
 * of pushed-back elements that is drained before the wrapped iterator is
 * advanced. It inherits hasNext/next from Guava's AbstractIterator, which
 * buffers one element fetched by hasNext and remembers end of data.
 */
module PushBack {
  import opened Wrappers

  /** AbstractIterator's state: nothing fetched, one element fetched and held, or end of data reported. */
  datatype State<T> = NotReady | Ready(next: T) | Done

  /**
   * What an iterator will still return, as a value: the front (the element
   * hasNext fetched, then the queue, to whose end pushed-back elements go),
   * the wrapped iterator's elements, and whether end of data is yet to be
   * reported.
   */
  datatype Stream<T> = Stream(front: seq<T>, wrapped: seq<T>, live: bool)
  {
    function Pending(): seq<T>
    {
      if live then front + wrapped else []
    }

    /** next(): the first pending element is taken, from the front while it has one. */
    function Pop(): (s: Stream<T>)
      requires Pending() != []
      ensures s.live && s.Pending() == Pending()[1..]
    {
      if front != [] then Stream(front[1..], wrapped, live) else Stream([], wrapped[1..], live)
    }
  }

  class PushBackIterator<T> {
    var queue: seq<T>
    /** The elements the wrapped iterator has yet to return. */
    var wrapped: seq<T>
    var state: State<T>

    constructor (wrapped: seq<T>)
      ensures this.wrapped == wrapped && queue == [] && state == NotReady
      ensures Pending() == wrapped
    {
      this.wrapped := wrapped;
      queue := [];
      state := NotReady;
    }

    /** The elements next() will still return, in order. */
    ghost function Pending(): seq<T>
      reads this
    {
      match state
      case Done => []
      case Ready(x) => [x] + queue + wrapped
      case NotReady => queue + wrapped
    }

    /** The iterator as a Stream. */
    ghost function View(): (s: Stream<T>)
      reads this
      ensures s.Pending() == Pending()
    {
      Stream(match state case Ready(x) => [x] + queue case _ => queue, wrapped, !state.Done?)
    }

    /**
     * pushBack(elem): appends to the queue and returns true. An element
     * already fetched by hasNext still comes first, and after end of data
     * has been reported the element is never returned.
     */
    method PushBack(elem: T) returns (b: bool)
      modifies this
      ensures b
      ensures queue == old(queue) + [elem] && wrapped == old(wrapped) && state == old(state)
      ensures state.NotReady? ==> Pending() == old(queue) + [elem] + wrapped
      ensures state.Ready? ==> Pending() == [state.next] + old(queue) + [elem] + wrapped
      ensures state.Done? ==> Pending() == []
    {
      queue := queue + [elem];
      b := true;
    }

    /** pushBack(Collection): appends the elements in order; true when there was at least one. */
    method PushBackAll(elems: seq<T>) returns (b: bool)
      modifies this
      ensures b <==> |elems| > 0
      ensures queue == old(queue) + elems && wrapped == old(wrapped) && state == old(state)
    {
      queue := queue + elems;
      b := |elems| > 0;
    }

    /** pushBack(T[]): the array's elements in array order, through the collection overload. */
    method PushBackArray(elems: array<T>) returns (b: bool)
      modifies this
      ensures b <==> elems.Length > 0
      ensures queue == old(queue) + elems[..] && wrapped == old(wrapped) && state == old(state)
    {
      b := PushBackAll(elems[..]);
    }

    /**
     * computeNext: the head of the queue while it is non-empty, otherwise the
     * wrapped iterator's next element, otherwise end of data (None).
     */
    method ComputeNext() returns (r: Option<T>)
      modifies this
      ensures state == old(state)
      ensures old(queue) != [] ==> r == Some(old(queue)[0]) && queue == old(queue)[1..] && wrapped == old(wrapped)
      ensures old(queue) == [] && old(wrapped) != [] ==> r == Some(old(wrapped)[0]) && queue == [] && wrapped == old(wrapped)[1..]
      ensures old(queue) == [] && old(wrapped) == [] ==> r.None? && queue == [] && wrapped == []
    {
      if queue == [] {
        if wrapped != [] {
          r := Some(wrapped[0]);
          wrapped := wrapped[1..];
        } else {
          r := None;
        }
      } else {
        r := Some(queue[0]);
        queue := queue[1..];
      }
    }

    /**
     * hasNext: true while an element is pending. It fetches the next element
     * into the buffer, or records end of data, so that later pushes cannot
     * overtake the one fetched and cannot revive an exhausted iterator.
     */
    method HasNext() returns (b: bool)
      modifies this
      ensures b <==> old(Pending()) != []
      ensures Pending() == old(Pending())
      ensures b ==> state.Ready? && View().Pop() == old(View()).Pop()
      ensures !b ==> state.Done? && View() == old(View()).(live := false)
    {
      match state {
        case Done =>
          b := false;
        case Ready(_) =>
          b := true;
        case NotReady =>
          var r := ComputeNext();
          if r.None? {
            state := Done;
            b := false;
          } else {
            state := Ready(r.value);
            b := true;
          }
      }
    }

    /** next: the first pending element, or None (NoSuchElementException) when none is left. */
    method Next() returns (r: Option<T>)
      modifies this
      ensures old(Pending()) == [] ==> r.None? && Pending() == []
      ensures old(Pending()) != [] ==> r == Some(old(Pending())[0]) && Pending() == old(Pending())[1..] && state.NotReady?
      ensures old(Pending()) != [] ==> View() == old(View()).Pop()
    {
      var more := HasNext();
      if !more {
        return None;
      }
      r := Some(state.next);
      state := NotReady;
    }
  }
}
