# Swipe-card engine of SushiSwipe, in Dafny

This project models the card stack of the SushiSwipe catalog (`SwipeContainer`). The user sees one product at a time and handles it in one of three ways:

- drags it down, or presses the cart button, to add it to the cart;
- drags it right or presses "next" to skip it;
- drags it left or presses "back", which also skips it.

The model has three parts.

- **Gesture classifier** (module `Gesture`, `gesture.dfy`). The drag-end handler reads the drag's final offset and velocity. It picks *down* if either vertical value passes its threshold (100 px or 500 px/s), otherwise *right*, otherwise *left*, otherwise nothing. In the model, nothing is called `SnapBack`.
- **Session as values** (module `Session`, `session.dfy`). The state is:
  - the cursor `index`;
  - the exit vector;
  - the log of products passed to the cart's `addItem`;
  - the number of times `onAllSwiped` has run.

  `Advance`, `Apply`, `ButtonSwipe` and `DragEnd` give the next state. The lemmas state the session's properties: monotonic cursor, bounds, cart effect, completion on the last card, and drag/button equivalence.
- **Session as an object** (module `Container`, `container.dfy`). The class `SwipeContainer` holds the state cells `currentIndex`, `exitX` and `exitY` as fields, with a ghost cart log and a callback counter. `HandleDragEnd`, `Swipe` and `GoToNext` update these fields in place. Each one is proved to reach exactly the state given by the matching `Session` function. `HandleDragEnd` and `Swipe` also keep the invariant `Session.Consistent`. `GoToNext` is the shared advance they call, and it is proved equal to `Session.Advance`.

The product record and the categories are datatypes in module `Types` (`types.dfy`).

The model follows the code as written, including these points:

- The thresholds are the fixed constants 100 and 500 (src/components/SwipeContainer.tsx:28-29).
- An empty product list starts exhausted (index 0 = length). The completion callback does **not** run, because it is only called from the advance (src/components/SwipeContainer.tsx:60-62). `Session.EmptyListNeverCompletes` states this.
- A *left* swipe skips forward like *right*. The comment "Go back" at src/components/SwipeContainer.tsx:47 does not change that, and `Session.LeftSkipsForward` states it.
- When offset and velocity point in opposite horizontal directions and both pass their thresholds, the code picks *right* (`Gesture.ConflictGoesRight`).

## Model

| member | source | states |
|---|---|---|
| `Types.ProductAt` | src/components/SwipeContainer.tsx:24-25 | Indexing the product list gives a product exactly when the index is inside the list, and then it is that element; past the end there is none (JavaScript's `undefined`) |
| `Gesture.Classify` | src/components/SwipeContainer.tsx:31-51 | Priority order: *down* whenever a vertical threshold is crossed; *right* iff not down and right crossed; *left* iff neither down nor right and left crossed; snap-back iff none crossed |
| `Gesture.SnapBackIffDeadZone` | src/components/SwipeContainer.tsx:28-33 | A drag does nothing if and only if offset.x is in [-100,100], velocity.x in [-500,500], offset.y <= 100 and velocity.y <= 500 |
| `Gesture.DownIffVerticalCrossed` | src/components/SwipeContainer.tsx:28-35 | The outcome is *down* if and only if offset.y > 100 or velocity.y > 500, whatever the horizontal values |
| `Gesture.DiagonalCommits` | src/components/SwipeContainer.tsx:31-41 | A drag crossing a vertical and a horizontal threshold at once is *down* |
| `Gesture.UpwardNeverCommits` | src/components/SwipeContainer.tsx:33 | A drag with no downward offset or velocity never goes to the cart |
| `Gesture.ConflictGoesRight` | src/components/SwipeContainer.tsx:31-46 | If the right and left tests both hold and down does not, the outcome is *right* |
| `Gesture.MirrorSwapsSides` | src/components/SwipeContainer.tsx:31-32 | Mirroring a drag horizontally swaps *left* and *right* and keeps the rest, unless both horizontal tests hold |
| `Session.Advance` | src/components/SwipeContainer.tsx:54-65 | The cursor moves up by exactly one. Before the last card, the exit vector is reset to (0,0) and no callback runs. From the last card, the index becomes the length, the exit vector is kept, and the callback runs once if it was supplied |
| `Session.Apply` | src/components/SwipeContainer.tsx:35-50 | A decided swipe advances the cursor by exactly one, to at most the length, *left* included. Only *down* appends, and it appends exactly the current product. The exit vector is (0,1000), (1000,0) or (-1000,0) on the last card and (0,0) otherwise. The callback count rises only when the list ends |
| `Session.ButtonSwipe` | src/components/SwipeContainer.tsx:67-82 | Once the list is exhausted a button does nothing. Otherwise the cursor does not go back and does not pass the end |
| `Session.DragEnd` | src/components/SwipeContainer.tsx:27-52 | A drag leaves the state unchanged if and only if it classifies as snap-back |
| `Session.DragMatchesButton` | src/components/SwipeContainer.tsx:35-81 | A drag classified as d and the button for d give the same state: same cart, exit vector, cursor and callback count |
| `Session.DeadZoneDragIsIgnored` | src/components/SwipeContainer.tsx:31-51 | A drag in the dead zone changes nothing: no cart add, no exit vector, no advance |
| `Session.DragCartEffect` | src/components/SwipeContainer.tsx:35-50 | A drag adds the current product to the cart exactly once if it crosses a vertical threshold, and adds nothing otherwise |
| `Session.LeftSkipsForward` | src/components/SwipeContainer.tsx:41-50 | *Left* moves the cursor forward by one, to the same card and cart as *right* |
| `Session.NextBecomesCurrent` | src/components/SwipeContainer.tsx:24-25 | After a swipe, the card on top is the card that was shown behind it before |
| `Session.InitialConsistent` | src/components/SwipeContainer.tsx:14-16 | A fresh session satisfies the invariant: cursor 0, exit vector (0,0), empty cart, no callback run |
| `Session.ButtonKeepsConsistent` | src/components/SwipeContainer.tsx:67-82 | The button path keeps the invariant. The cursor stays in [0, length]. The callback count is 1 exactly when a non-empty list is finished and a callback exists, and 0 otherwise. The exit vector is (0,0) while a card remains, and one of (0,1000), (1000,0), (-1000,0) once a non-empty list is finished. The cart is the passed cards picked, in order, by some history of one command per card passed: it equals `Picked` of the passed cards and that history |
| `Session.ApplyKeepsConsistent` | src/components/SwipeContainer.tsx:35-62 | A decided swipe on the current card keeps the invariant (the proof extends the history with the command) |
| `Session.DragKeepsConsistent` | src/components/SwipeContainer.tsx:27-52 | The drag path keeps the same invariant, so in a session that mixes drags and buttons the cart is still the passed cards picked by some history of commands. The exact cards follow step by step from `Session.Apply` |
| `Session.EmptyListNeverCompletes` | src/components/SwipeContainer.tsx:60-68 | On an empty list no sequence of presses changes anything, so `onAllSwiped` never runs |
| `Session.RunEffect` | src/components/SwipeContainer.tsx:54-82 | A run of m button commands from cursor k ends at min(k+m, length). It adds exactly the cards sent down, in order. It runs the callback once exactly when the run passes the last card |
| `Session.FullSession` | src/components/SwipeContainer.tsx:56-62 | n commands on a non-empty n-card list end exhausted, with the callback run exactly once (if supplied) and exactly the cards sent down in the cart |
| `Session.ExhaustedRunIsIdle` | src/components/SwipeContainer.tsx:68 | Any number of button presses after the list is exhausted changes nothing |
| `Session.RunKeepsConsistent` | src/components/SwipeContainer.tsx:56-62 | Any run of button commands keeps the invariant, so with each advance taken atomically the completion callback never runs twice |
| `Session.ThreeCardScenario` | src/components/SwipeContainer.tsx:67-82 | Three cards with down, right, down: the cart receives the first and third, the list is exhausted, and the callback has run once |
| `Container.SwipeContainer.constructor` | src/components/SwipeContainer.tsx:13-16 | A new container starts at card 0 with exit vector (0,0), an empty cart log, no callback run, and the invariant |
| `Container.SwipeContainer.CurrentProduct` | src/components/SwipeContainer.tsx:24 | There is a current card exactly when `canSwipe` holds (line 84), so the card is rendered exactly when the buttons are enabled |
| `Container.SwipeContainer.CanSwipe` | src/components/SwipeContainer.tsx:84 | The buttons are enabled exactly when indexing the list at the cursor gives a card |
| `Container.SwipeContainer.NextProduct` | src/components/SwipeContainer.tsx:25 | A background card is only present when a current card is |
| `Container.SwipeContainer.GoToNext` | src/components/SwipeContainer.tsx:54-65 | The in-place advance updates the fields exactly as `Session.Advance` does |
| `Container.SwipeContainer.HandleDragEnd` | src/components/SwipeContainer.tsx:27-52 | The in-place drag handler updates the fields exactly as `Session.DragEnd` does and keeps the invariant |
| `Container.SwipeContainer.Swipe` | src/components/SwipeContainer.tsx:67-82 | The in-place button handler updates the fields exactly as `Session.ButtonSwipe` does, keeps the invariant, and does nothing once exhausted |

## Left out

- The cart store (`../store/cartStore`) is not part of this model. Its add, merge and quantity rules cannot be checked. `addItem` is modelled as an append to the ghost log `added`. For the same reason, the cart page's `updateQuantity(id, quantity ± 1)` calls are left out, and so are cart totals.
- The 200 ms `setTimeout` deferral of the advance is left out, along with the stale `currentIndex` it captures (src/components/SwipeContainer.tsx:55-63). The advance is modelled as atomic, right after the decision, with the cart add first. The program does more than the model when two swipes come within 200 ms:
  - Two *down* presses on any card both pass the guard at line 68 and both call `addItem`, so the card is added twice.
  - On the last card, both timers still see the old `currentIndex`, take the branch at lines 60-62, and call `onAllSwiped` twice.
  - On any card i < n-1, both timers take the `prev + 1` branch at line 57, so card i+1 is skipped. From card n-2 the cursor reaches the length this way and `onAllSwiped` is never called.
  - Three presses on card n-2 take `prev + 1` three times and leave `currentIndex` at n+1, past the end of the list.
  - So these hold only when each advance is complete before the next swipe: the cursor moves by exactly one and never exceeds the length (`Session.Apply`, `Session.ButtonSwipe`, `Session.Consistent`); the cart gets the current card once per *down*; "never runs twice" (`Session.RunKeepsConsistent`); and "exactly the cards sent down" (`Session.RunEffect`).
- `Container.SwipeContainer.HandleDragEnd` requires a current card. The handler itself has no exhausted guard. It can only run on a rendered card, and the card is rendered only while `currentProduct` exists (src/components/SwipeContainer.tsx:99).
- The framer-motion visuals are left out: rotate and opacity interpolation, spring transitions and the snap-back animation. They are floating-point presentation.
- JSX rendering is left out. The counter text, the empty-state panel and the buttons' `disabled` attribute appear only through `CanSwipe`.
- The other components and pages (ProductCard, Header, CategoryTabs, HomePage, CartPage, CatalogPage, App) are left out. They are views and routing. A category change creates a fresh session, which is the constructor.
- Offsets and velocities are `real`. The code only compares them, so floating-point rounding plays no part.
