/**
 * The card-stack session as values: a cursor over a fixed product list, the
 * exit vector of the card that leaves, the products handed to the cart and
 * the number of times the completion callback ran. The class in module
 * Container is proved to follow these functions step by step.
 */
module Session {
  import opened Types
  import opened Gesture

  /** How far a leaving card is thrown, in pixels. */
  const ExitDistance: int := 1000

  /**
   * The session's state: `index` is the current card, `exitX`/`exitY` the
   * exit vector, `added` every product passed to the cart's `addItem` in
   * order, `completions` how many times `onAllSwiped` ran.
   */
  datatype SessionState = SessionState(
    index: nat,
    exitX: int,
    exitY: int,
    added: seq<Product>,
    completions: nat)

  /** A fresh session starts on the first card, with nothing thrown, added or completed. */
  function Initial(): SessionState {
    SessionState(0, 0, 0, [], 0)
  }

  /** Where a card leaves to for each command: down into the cart, or off a side. */
  function ExitVector(d: Direction): (int, int) {
    match d
    case Down => (0, ExitDistance)
    case Right => (ExitDistance, 0)
    case Left => (-ExitDistance, 0)
  }

  /**
   * The advance after a decision: the next card and a cleared exit vector,
   * or, from the last card, the index set to the list's length and the
   * completion callback run when there is one.
   */
  function Advance(n: nat, hasCallback: bool, s: SessionState): (r: SessionState)
    requires s.index < n
    ensures r.index == s.index + 1
    ensures r.added == s.added
    ensures r.index < n ==> r.exitX == 0 && r.exitY == 0 && r.completions == s.completions
    ensures r.index == n ==> r.exitX == s.exitX && r.exitY == s.exitY
    ensures r.index == n ==> r.completions == s.completions + (if hasCallback then 1 else 0)
  {
    if s.index < n - 1 then
      s.(index := s.index + 1, exitX := 0, exitY := 0)
    else
      s.(index := n, completions := s.completions + (if hasCallback then 1 else 0))
  }

  /**
   * One decided swipe on the current card: set the exit vector, hand the
   * product to the cart for `Down` only, then advance.
   */
  function Apply(products: seq<Product>, hasCallback: bool, s: SessionState, d: Direction): (r: SessionState)
    requires s.index < |products|
    ensures r.index == s.index + 1 && r.index <= |products|
    ensures r.added == s.added + (if d == Down then [products[s.index]] else [])
    ensures r.index < |products| ==> r.exitX == 0 && r.exitY == 0
    ensures r.index == |products| ==> (r.exitX, r.exitY) == ExitVector(d)
    ensures r.completions == s.completions + (if hasCallback && r.index == |products| then 1 else 0)
  {
    var (x, y) := ExitVector(d);
    var thrown := s.(exitX := x, exitY := y,
                     added := if d == Down then s.added + [products[s.index]] else s.added);
    Advance(|products|, hasCallback, thrown)
  }

  /** The button path: nothing once the list is exhausted, otherwise the decided swipe. */
  function ButtonSwipe(products: seq<Product>, hasCallback: bool, s: SessionState, d: Direction): (r: SessionState)
    ensures s.index >= |products| ==> r == s
    ensures s.index <= r.index
    ensures s.index < |products| ==> r.index <= |products|
  {
    if s.index >= |products| then s else Apply(products, hasCallback, s, d)
  }

  /**
   * The drag path. The handler has no exhausted guard of its own: it is only
   * attached to a rendered card, so it runs only while a current card exists.
   */
  function DragEnd(products: seq<Product>, hasCallback: bool, s: SessionState, info: PanInfo): (r: SessionState)
    requires s.index < |products|
    ensures Classify(info) == SnapBack <==> r == s
  {
    match Classify(info)
    case SnapBack => s
    case Down => Apply(products, hasCallback, s, Down)
    case Right => Apply(products, hasCallback, s, Right)
    case Left => Apply(products, hasCallback, s, Left)
  }

  /** A drag classified as `d` and the button for `d` lead to the same state. */
  lemma DragMatchesButton(products: seq<Product>, hasCallback: bool, s: SessionState, info: PanInfo, d: Direction)
    requires s.index < |products|
    requires Classify(info) == d
    ensures DragEnd(products, hasCallback, s, info) == ButtonSwipe(products, hasCallback, s, d)
  {
  }

  /** A drag inside the dead zone changes nothing: no cart add, no exit vector, no advance. */
  lemma DeadZoneDragIsIgnored(products: seq<Product>, hasCallback: bool, s: SessionState, info: PanInfo)
    requires s.index < |products|
    requires InDeadZone(info)
    ensures DragEnd(products, hasCallback, s, info) == s
  {
    SnapBackIffDeadZone(info);
  }

  /** Only a drag that crosses a vertical threshold reaches the cart, and then with exactly the current card. */
  lemma DragCartEffect(products: seq<Product>, hasCallback: bool, s: SessionState, info: PanInfo)
    requires s.index < |products|
    ensures var r := DragEnd(products, hasCallback, s, info);
      r.added == s.added + (if SwipedDown(info) then [products[s.index]] else [])
  {
  }

  /** Left moves forward just like right: both lead to the same next card and the same cart. */
  lemma LeftSkipsForward(products: seq<Product>, hasCallback: bool, s: SessionState)
    requires s.index < |products|
    ensures var l := ButtonSwipe(products, hasCallback, s, Left);
            var r := ButtonSwipe(products, hasCallback, s, Right);
      l.index == r.index == s.index + 1 && l.added == r.added == s.added && l.completions == r.completions
  {
  }

  /** The card shown after a swipe that does not end the list is the one shown behind it before. */
  lemma NextBecomesCurrent(products: seq<Product>, hasCallback: bool, s: SessionState, d: Direction)
    requires s.index < |products|
    ensures ProductAt(products, Apply(products, hasCallback, s, d).index) == ProductAt(products, s.index + 1)
  {
  }

  /**
   * What every reachable state satisfies: the cursor stays within the list,
   * the callback has run once exactly when a non-empty list was finished,
   * the exit vector is cleared while a card remains and is one of the three
   * throws once a non-empty list is finished, and the cart holds exactly the
   * cards passed so far that some command sent down, in order.
   */
  ghost predicate Consistent(products: seq<Product>, hasCallback: bool, s: SessionState) {
    && s.index <= |products|
    && s.completions == (if hasCallback && 0 < |products| && s.index == |products| then 1 else 0)
    && (s.index < |products| ==> s.exitX == 0 && s.exitY == 0)
    && (0 < |products| == s.index ==>
          (s.exitX, s.exitY) in {ExitVector(Down), ExitVector(Right), ExitVector(Left)})
    && exists ds: seq<Direction> :: |ds| == s.index && s.added == Picked(products[..s.index], ds)
  }

  /** A fresh session is consistent. */
  lemma InitialConsistent(products: seq<Product>, hasCallback: bool)
    ensures Consistent(products, hasCallback, Initial())
  {
    assert Initial().added == Picked(products[..0], []);
  }

  /** On an empty list no sequence of presses changes anything, so the completion callback never runs. */
  lemma EmptyListNeverCompletes(products: seq<Product>, hasCallback: bool, ds: seq<Direction>)
    requires |products| == 0
    ensures Run(products, hasCallback, Initial(), ds) == Initial()
    ensures Run(products, hasCallback, Initial(), ds).completions == 0
  {
    ExhaustedRunIsIdle(products, hasCallback, Initial(), ds);
  }

  /** Passing one more card with command `d` extends the picked cards by that card exactly when `d` is `Down`. */
  lemma {:induction false} PickedSnoc(cards: seq<Product>, x: Product, ds: seq<Direction>, d: Direction)
    requires |cards| == |ds|
    ensures Picked(cards + [x], ds + [d]) == Picked(cards, ds) + (if d == Down then [x] else [])
    decreases |cards|
  {
    if cards != [] {
      assert (cards + [x])[1..] == cards[1..] + [x];
      assert (ds + [d])[1..] == ds[1..] + [d];
      PickedSnoc(cards[1..], x, ds[1..], d);
    }
  }

  /** A decided swipe on the current card keeps the invariant, with the command appended to the history. */
  lemma ApplyKeepsConsistent(products: seq<Product>, hasCallback: bool, s: SessionState, d: Direction)
    requires Consistent(products, hasCallback, s)
    requires s.index < |products|
    ensures Consistent(products, hasCallback, Apply(products, hasCallback, s, d))
  {
    var ds: seq<Direction> :| |ds| == s.index && s.added == Picked(products[..s.index], ds);
    var r := Apply(products, hasCallback, s, d);
    assert products[..r.index] == products[..s.index] + [products[s.index]];
    PickedSnoc(products[..s.index], products[s.index], ds, d);
    assert |ds + [d]| == r.index && r.added == Picked(products[..r.index], ds + [d]);
  }

  lemma ButtonKeepsConsistent(products: seq<Product>, hasCallback: bool, s: SessionState, d: Direction)
    requires Consistent(products, hasCallback, s)
    ensures Consistent(products, hasCallback, ButtonSwipe(products, hasCallback, s, d))
  {
    if s.index < |products| {
      ApplyKeepsConsistent(products, hasCallback, s, d);
    }
  }

  lemma DragKeepsConsistent(products: seq<Product>, hasCallback: bool, s: SessionState, info: PanInfo)
    requires Consistent(products, hasCallback, s)
    requires s.index < |products|
    ensures Consistent(products, hasCallback, DragEnd(products, hasCallback, s, info))
  {
    match Classify(info)
    case SnapBack =>
    case Down => ApplyKeepsConsistent(products, hasCallback, s, Down);
    case Right => ApplyKeepsConsistent(products, hasCallback, s, Right);
    case Left => ApplyKeepsConsistent(products, hasCallback, s, Left);
  }

  /** A sequence of button presses, applied one after the other. */
  function Run(products: seq<Product>, hasCallback: bool, s: SessionState, ds: seq<Direction>): SessionState
    decreases |ds|
  {
    if ds == [] then s
    else Run(products, hasCallback, ButtonSwipe(products, hasCallback, s, ds[0]), ds[1..])
  }

  /** The cards sent down by commands `ds` issued against the cards `cards`, pairwise. */
  function Picked(cards: seq<Product>, ds: seq<Direction>): (r: seq<Product>)
    ensures |r| <= |cards| && |r| <= |ds|
  {
    if cards == [] || ds == [] then []
    else (if ds[0] == Down then [cards[0]] else []) + Picked(cards[1..], ds[1..])
  }

  function Min(a: int, b: int): int {
    if a <= b then a else b
  }

  /**
   * Running `ds` from any state moves the cursor one card per command until
   * the list ends, adds exactly the cards sent down, and runs the callback
   * once if and only if this run passes the last card.
   */
  lemma {:induction false} RunEffect(products: seq<Product>, hasCallback: bool, s: SessionState, ds: seq<Direction>)
    requires s.index <= |products|
    ensures var r := Run(products, hasCallback, s, ds);
      && r.index == Min(s.index + |ds|, |products|)
      && r.added == s.added + Picked(products[s.index..], ds)
      && r.completions == s.completions
           + (if hasCallback && s.index < |products| <= s.index + |ds| then 1 else 0)
    decreases |ds|
  {
    if ds == [] {
    } else if s.index == |products| {
      RunEffect(products, hasCallback, s, ds[1..]);
    } else {
      var s' := ButtonSwipe(products, hasCallback, s, ds[0]);
      RunEffect(products, hasCallback, s', ds[1..]);
      assert products[s.index..][1..] == products[s'.index..];
    }
  }

  /**
   * A session over `n > 0` cards driven by `n` commands ends exhausted, has run
   * the callback exactly once (if there is one) and has added exactly the
   * cards that were sent down, in order.
   */
  lemma FullSession(products: seq<Product>, hasCallback: bool, ds: seq<Direction>)
    requires 0 < |products| == |ds|
    ensures var r := Run(products, hasCallback, Initial(), ds);
      && r.index == |products|
      && r.completions == (if hasCallback then 1 else 0)
      && r.added == Picked(products, ds)
  {
    RunEffect(products, hasCallback, Initial(), ds);
    assert products[0..] == products;
  }

  /** Presses after the list is exhausted do nothing. */
  lemma {:induction false} ExhaustedRunIsIdle(products: seq<Product>, hasCallback: bool, s: SessionState, ds: seq<Direction>)
    requires s.index >= |products|
    ensures Run(products, hasCallback, s, ds) == s
    decreases |ds|
  {
    if ds != [] {
      ExhaustedRunIsIdle(products, hasCallback, s, ds[1..]);
    }
  }

  /** Every run of button presses from a fresh session stays consistent: the callback never runs twice. */
  lemma {:induction false} RunKeepsConsistent(products: seq<Product>, hasCallback: bool, s: SessionState, ds: seq<Direction>)
    requires Consistent(products, hasCallback, s)
    ensures Consistent(products, hasCallback, Run(products, hasCallback, s, ds))
    ensures Run(products, hasCallback, s, ds).completions <= 1
    decreases |ds|
  {
    if ds != [] {
      ButtonKeepsConsistent(products, hasCallback, s, ds[0]);
      RunKeepsConsistent(products, hasCallback, ButtonSwipe(products, hasCallback, s, ds[0]), ds[1..]);
    }
  }

  /**
   * Three cards; the first and third are sent down, the second to the right:
   * the cart receives the first and third, the list is exhausted and the
   * callback has run once.
   */
  lemma ThreeCardScenario(a: Product, b: Product, c: Product)
    ensures var r := Run([a, b, c], true, Initial(), [Down, Right, Down]);
      r.index == 3 && r.added == [a, c] && r.completions == 1
  {
    FullSession([a, b, c], true, [Down, Right, Down]);
  }
}
