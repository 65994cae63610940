/**
 * The swipe container as an object: its state cells are fields, its
 * handlers are methods that update them in place, and each handler is
 * proved to take the state exactly where module Session says it goes.
 */
module Container {
  import opened Types
  import opened Gesture
  import opened Session

  class SwipeContainer {
    /** The list being browsed; it does not change during a session. */
    const products: seq<Product>
    /** Whether the optional `onAllSwiped` callback was supplied. */
    const hasOnAllSwiped: bool

    var currentIndex: nat
    var exitX: int
    var exitY: int
    /** Every product passed to the cart's `addItem`, in order. */
    ghost var added: seq<Product>
    /** How many times `onAllSwiped` has been called. */
    var allSwipedCalls: nat

    ghost function State(): SessionState
      reads this
    {
      SessionState(currentIndex, exitX, exitY, added, allSwipedCalls)
    }

    ghost predicate Valid()
      reads this
    {
      Consistent(products, hasOnAllSwiped, State())
    }

    constructor (products: seq<Product>, hasOnAllSwiped: bool)
      ensures this.products == products && this.hasOnAllSwiped == hasOnAllSwiped
      ensures State() == Initial()
      ensures Valid()
    {
      this.products := products;
      this.hasOnAllSwiped := hasOnAllSwiped;
      currentIndex, exitX, exitY := 0, 0, 0;
      added := [];
      allSwipedCalls := 0;
      new;
      InitialConsistent(products, hasOnAllSwiped);
    }

    /** The card on top, if any. */
    function CurrentProduct(): (p: Option<Product>)
      reads this
      ensures p.Some? <==> CanSwipe()
    {
      ProductAt(products, currentIndex)
    }

    /** The card shown behind the top one, if any. */
    function NextProduct(): (p: Option<Product>)
      reads this
      ensures p.Some? ==> CurrentProduct().Some?
    {
      ProductAt(products, currentIndex + 1)
    }

    /** The buttons are enabled while a card remains. */
    function CanSwipe(): (b: bool)
      reads this
      ensures b <==> ProductAt(products, currentIndex).Some?
    {
      currentIndex < |products|
    }

    /** The deferred advance, taken here as one atomic step. */
    method GoToNext()
      requires currentIndex < |products|
      modifies this
      ensures State() == Advance(|products|, hasOnAllSwiped, old(State()))
    {
      if currentIndex < |products| - 1 {
        currentIndex := currentIndex + 1;
        exitX := 0;
        exitY := 0;
      } else {
        currentIndex := |products|;
        if hasOnAllSwiped {
          allSwipedCalls := allSwipedCalls + 1;
        }
      }
    }

    /** The drag-end handler; it is attached only to a rendered card. */
    method HandleDragEnd(info: PanInfo)
      requires Valid() && CanSwipe()
      modifies this
      ensures State() == DragEnd(products, hasOnAllSwiped, old(State()), info)
      ensures Valid()
    {
      DragKeepsConsistent(products, hasOnAllSwiped, State(), info);
      var swipedRight := info.offset.x > SwipeThreshold || info.velocity.x > VelocityThreshold;
      var swipedLeft := info.offset.x < -SwipeThreshold || info.velocity.x < -VelocityThreshold;
      var swipedDown := info.offset.y > SwipeThreshold || info.velocity.y > VelocityThreshold;

      if swipedDown {
        exitX := 0;
        exitY := ExitDistance;
        added := added + [products[currentIndex]];
        GoToNext();
      } else if swipedRight {
        exitX := ExitDistance;
        exitY := 0;
        GoToNext();
      } else if swipedLeft {
        exitX := -ExitDistance;
        exitY := 0;
        GoToNext();
      }
    }

    /** The button handler: ignored once the list is exhausted. */
    method Swipe(direction: Direction)
      requires Valid()
      modifies this
      ensures State() == ButtonSwipe(products, hasOnAllSwiped, old(State()), direction)
      ensures Valid()
    {
      ButtonKeepsConsistent(products, hasOnAllSwiped, State(), direction);
      if currentIndex >= |products| {
        return;
      }
      if direction == Down {
        exitX := 0;
        exitY := ExitDistance;
        added := added + [products[currentIndex]];
      } else if direction == Right {
        exitX := ExitDistance;
        exitY := 0;
      } else {
        exitX := -ExitDistance;
        exitY := 0;
      }
      GoToNext();
    }
  }
}
