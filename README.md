# Toad the web socket: callback registry and lights-out game state

This project models, in Dafny, the two pieces of sequential logic in the
repository `toad-the-web-socket`, and proves properties of them.

1. **The callback registry of `toad.py`** (module `Toad`, file `toad.dfy`).
   The module holds a table from the event names `open`, `message`, `error`
   and `close` to lists of handlers. The registrars `onopen`, `onmessage`,
   `onerror` and `onclose` are decorators built by `_callback_decorator_for`.
   Each appends the decorated function to its event's list and returns the
   function unchanged. Dispatch (`_on`) calls one event's handlers in list
   order and returns the last result that is not `None`.

   The table is the field `table: map<string, seq<H>>` of class `Callbacks<H>`.
   Handlers are opaque values of a type `H`. When one dispatch calls a handler
   with that dispatch's arguments, what it returns is given by a parameter
   `call: H -> Option<V>`, where `None` stands for Python's `None`. `On`
   returns the dispatch result and also the list of handlers it called.
   `LastSome` is the reference definition of the result: the last non-`None`
   entry of a list of results. A lookup of an event name the table lacks
   raises `KeyError` in Python. Here it is the error value `KeyError(name)`,
   both for dispatch and for registration.

2. **The lights-out game state of `lights-out/game.py`** (module `Game`, file
   `game.dfy`). A board is `w` by `h` cells stored row after row in a flat
   list `pattern`, cell `(x, y)` at index `x + w*y`. `adjs0` yields the
   in-bounds indices of the plus-shaped neighbourhood of a cell, in the order
   self, left, up, right, down. `adjs` is its cached list. `toggle` flips
   those cells in place (`1 - v`). `is_win` tests for an all-zero board.
   `toobj`/`fromobj` convert to and from a plain record. `randomstate`
   presses random cells of a fresh all-ones board.

   `Gamestate` is a class with `const` fields `w`, `h` and an
   `array<int>` `pattern`. The source never reassigns these attributes: only
   the cells of `pattern` change. The loop of `toggle` is the method
   `FlipCells`. It is proved against the function `FlipAll`, which flips the
   listed cells in turn. On an index outside the pattern it stops with the
   earlier flips kept and reports failure: Python raises `IndexError` there
   after the earlier writes. `Toggled` is an independent reference definition,
   "flip exactly the listed cells". It is proved equal to `FlipAll` for
   distinct in-range indices, which is what `Adjs0` always yields on a
   `w*h`-cell board. `Any` models Python's `any`, and `Won` is `not any`.
   `Obj` is the record `toobj` builds. It holds the same array object, not a
   copy, as the Python dict holds the same list. Its `pattern` is an
   `Option`, because `fromobj` passes `obj["pattern"]` to `__init__`, which
   builds a fresh all-ones board when that value is `None`.
   `randomstate` takes the coin flips as input: `coins[x*Count(h) + y]` is
   the outcome of `random.random() < 0.5` for cell `(x, y)`. That is the
   order of the draws in the nested loops. `Rows`/`Row` give the board after
   each outer and inner iteration. `Count(n)` is the length of `range(n)`,
   which is 0 for negative `n`.

`lights-out/server.py:62` registers a handler with `toad.ontick`, which
`toad.py` does not define: the table has four entries (toad.py:7-12), and the
server and client functions raise `NotImplementedError` (toad.py:33-56). The
model follows `toad.py`, so dispatching `tick` yields `KeyError("tick")`.

## Model

| member | source | states |
|---|---|---|
| `Toad.Results` | toad.py:15-16 | definition: the values the handlers return, in list order; specified through `Callbacks.On` |
| `Toad.LastSome` | toad.py:14-19 | definition of the dispatch result, the last non-None value; specified by LastSomeNone, LastSomeIsLast, LastSomeWitness, LastSomeAppend |
| `Toad.CallbackDecoratorFor` | toad.py:20-25 | definition of `_callback_decorator_for`: a registrar for the event, named "on" + eventname; applied by `Callbacks.Decorate`, specified by RegistrarsCoverEvents |
| `Toad.InitialTable` | toad.py:7-12 | the table starts with exactly the keys open, message, error, close, each with an empty list |
| `Toad.Appended` | toad.py:20-23 | registering fails with KeyError exactly when the event has no list; otherwise the keys are unchanged, the named list grows by the callback at its end, and every other list is unchanged |
| `Toad.AppendedKeepsWellFormed` | toad.py:7-12 | registration for any of the four events succeeds and never adds or removes a key |
| `Toad.RegistrarsCoverEvents` | toad.py:24-29 | the four public registrars register for exactly the four table events, named onopen, onmessage, onerror, onclose |
| `Toad.LastSomeNone` | toad.py:14-19 | dispatch yields None exactly when every handler returned None, including when there are no handlers |
| `Toad.LastSomeIsLast` | toad.py:15-18 | a non-None result followed only by None results is the dispatch result |
| `Toad.LastSomeWitness` | toad.py:15-18 | a non-None dispatch result is some handler's result with only None results after it |
| `Toad.LastSomeAppend` | toad.py:15-18 | later handlers override earlier ones: over a followed by b, b's result wins unless all of b returned None |
| `Toad.Callbacks.constructor` | toad.py:7-12 | the registry starts as the initial four-event table |
| `Toad.Callbacks.Decorate` | toad.py:21-23 | applying a registrar appends the callback to its event's list and returns the callback unchanged, or raises KeyError and leaves the table as it was; well-formedness is kept |
| `Toad.Callbacks.On` | toad.py:13-19 | dispatch calls exactly the named event's handlers, once each in list order, and returns the last non-None result (KeyError for an unknown event) |
| `Game.Keep` | lights-out/game.py:6-8 | definition: one offset's contribution, the flat index x + w*y when (x, y) is in bounds and nothing otherwise; specified by IndexBounds, IndexInjective |
| `Game.AdjsFrom` | lights-out/game.py:5-8 | definition of the generator loop over a list of offsets; specified by AdjsFromLength, AdjsFromHas, AdjsFromOnly, AdjsFromDistinct, AdjsFromBounds, AdjsFromCons |
| `Game.Adjs0` | lights-out/game.py:4-8 | definition of adjs0; specified by Adjs0Shape, Adjs0Cells, Adjs0Order, Adjs0SelfFirst |
| `Game.Adjs` | lights-out/game.py:9-11 | definition of adjs: the list adjs0 yields (the cache returns that same list); specified by the Adjs0 lemmas and ToggleEffect |
| `Game.IndexBounds` | lights-out/game.py:7-8 | the flat index of an in-bounds cell lies in [0, w*h) |
| `Game.IndexInjective` | lights-out/game.py:7-8 | different in-bounds cells have different flat indices |
| `Game.AdjsFromLength` | lights-out/game.py:5-8 | the generator yields at most one index per offset |
| `Game.AdjsFromHas` | lights-out/game.py:5-8 | the index of an in-bounds cell at one of the offsets is yielded |
| `Game.AdjsFromOnly` | lights-out/game.py:5-8 | every yielded index is that of an in-bounds cell at one of the offsets |
| `Game.AdjsFromDistinct` | lights-out/game.py:5-8 | distinct offsets yield distinct indices |
| `Game.AdjsFromBounds` | lights-out/game.py:5-8 | every yielded index is below w*h |
| `Game.AdjsFromCons` | lights-out/game.py:5-8 | one offset contributes its in-bounds index ahead of the later offsets |
| `Game.OffsetsAreNear` | lights-out/game.py:5 | the five offsets are exactly the displacements of Manhattan length at most one |
| `Game.Adjs0Shape` | lights-out/game.py:4-8 | adjs0 yields at most 5 indices, all distinct, all in [0, w*h) |
| `Game.Adjs0HasNear` | lights-out/game.py:4-8 | every in-bounds cell among (x0,y0) and its four neighbours has its index yielded |
| `Game.Adjs0OnlyNear` | lights-out/game.py:4-8 | only indices of in-bounds cells among (x0,y0) and its four neighbours are yielded |
| `Game.Adjs0Cells` | lights-out/game.py:4-8 | an index is yielded exactly when it is that of an in-bounds cell at distance at most one from (x0,y0) |
| `Game.Adjs0Order` | lights-out/game.py:5-8 | the indices come in the order self, left, up, right, down, each present exactly when in bounds |
| `Game.Adjs0SelfFirst` | lights-out/game.py:5-8 | an in-bounds (x0,y0) yields its own index first |
| `Game.FlipAll` | lights-out/game.py:25-26 | definition of the toggle loop on a list value; specified by FlipAllStep, FlipAllShape, FlipAllIsToggled |
| `Game.Toggled` | lights-out/game.py:24-26 | independent reference definition of a toggle: flip exactly the listed cells; tied to FlipAll by FlipAllIsToggled |
| `Game.ToggleAt` | lights-out/game.py:24-26 | definition: the pattern after pressing (x, y); specified by ToggleEffect, ToggleTwice, ToggleCommutes |
| `Game.FlipAllStep` | lights-out/game.py:25-26 | one step of the toggle loop: an index outside the pattern stops it, an index inside flips that cell and goes on |
| `Game.FlipAllShape` | lights-out/game.py:24-26 | toggling keeps the length and the 0/1 values, and fails exactly when some index is outside the pattern |
| `Game.FlipAllIsToggled` | lights-out/game.py:24-26 | with distinct in-range indices, the loop flips exactly the listed cells and keeps every other cell |
| `Game.ToggledTwice` | lights-out/game.py:26 | flipping the same cells twice restores the pattern |
| `Game.ToggledCommute` | lights-out/game.py:26 | flipping two lists of cells in either order gives the same pattern |
| `Game.ToggleEffect` | lights-out/game.py:24-26 | on a board of at least w*h cells toggle succeeds, sets 1 - v at exactly the adjs indices, leaves every other cell, and keeps the length and 0/1 values |
| `Game.ToggleTwice` | lights-out/game.py:24-26 | toggling the same cell twice restores the pattern |
| `Game.ToggleCommutes` | lights-out/game.py:24-26 | toggles of any two cells commute |
| `Game.Any` | lights-out/game.py:23 | definition of Python's any over the cells; specified through WonIff |
| `Game.Won` | lights-out/game.py:22-23 | definition of is_win on a list value, not any(pattern); specified by WonIff |
| `Game.Default` | lights-out/game.py:18-19 | definition of the board built without a pattern, Count(w*h) ones; specified by DefaultNotWon |
| `Game.WonIff` | lights-out/game.py:22-23 | not any(pattern) holds exactly when every cell is 0 |
| `Game.DefaultNotWon` | lights-out/game.py:18-19 | a fresh default board with w*h > 0 has w*h cells, all 0/1, and is not a win |
| `Game.CoinIndexBound` | lights-out/game.py:35-38 | the draw for cell (x, y) of the nested loops is within the w*h draws |
| `Game.Row` | lights-out/game.py:36-38 | definition: the board after the inner loop has pressed cells (x, 0) .. (x, y-1) whose draws say so; specified by RowShape and tied to the loop by RandomState |
| `Game.Rows` | lights-out/game.py:35-38 | definition: the board after the outer loop has run rows 0 .. x-1; specified by RowsShape and tied to the loop by RandomState |
| `Game.RowShape` | lights-out/game.py:36-38 | the inner loop of randomstate keeps the board's length and 0/1 values |
| `Game.RowsShape` | lights-out/game.py:35-38 | the outer loop of randomstate keeps the board's length and 0/1 values |
| `Game.RandomBoardShape` | lights-out/game.py:33-39 | a random board has the default board's size and only 0/1 cells |
| `Game.Gamestate.constructor` | lights-out/game.py:15-21 | the given pattern object is kept as is; without one the board is a fresh list of w*h ones |
| `Game.Gamestate.IsWin` | lights-out/game.py:22-23 | is_win is true exactly when every cell of pattern is 0 |
| `Game.Gamestate.FlipCells` | lights-out/game.py:25-26 | the toggle loop leaves the pattern, and reports success or IndexError, exactly as FlipAll says |
| `Game.Gamestate.Toggle` | lights-out/game.py:24-26 | toggle changes the pattern exactly as FlipAll over adjs(w, h, x0, y0) says, and never raises IndexError on a board of at least w*h cells |
| `Game.Gamestate.ToObj` | lights-out/game.py:27-28 | definition of toobj: the record of w, h and the same pattern object; specified by FromObjOfToObj |
| `Game.Gamestate.FromObj` | lights-out/game.py:29-31 | fromobj builds a state with the record's w and h and its pattern object, or a fresh default board for a None pattern |
| `Game.Gamestate.RandomState` | lights-out/game.py:32-39 | randomstate returns a state of width w and height h with a fresh pattern: the all-ones board with cell (x, y) pressed exactly when its draw says so, in loop order |
| `Game.FromObjOfToObj` | lights-out/game.py:27-31 | fromobj(toobj(s)) has the same w, h and pattern object as s |

## Left out

- `start_server`, `Client`, `open`, `send` and `close` in `toad.py` raise `NotImplementedError`, so they have no behaviour to model. The WebSocket engine (framing, masking, handshake, pings, ticks) is not part of the code shown.
- The `ontick` registrar that `lights-out/server.py` uses does not exist in `toad.py`, and the table has no `tick` entry.
- `lights-out/server.py` and `test_server.py` are applications of the library. They run a network server, decode JSON, keep module-global game and timer state, and call broadcast and ping functions the library does not define. They are not part of this model.
- The `*args, **kw` that `_on` passes to every handler are folded into `call`. What a handler does besides returning a value is not modelled. That covers exceptions that propagate out of `_on`, handlers that register more handlers while a dispatch is iterating over the list, and handlers that return different values when one dispatch lists them twice.
- `_callback_decorator_for` returns a closure. Here it is the value `Decorator(eventname, name)`, and applying it is `Callbacks.Decorate`. The `__name__` is kept as the `name` field.
- `functools.cache` on `adjs`: `Adjs` is defined as `Adjs0`. In Python, every caller shares the one cached list, and a caller that mutated it would change later results. No code here mutates it, and the model does not capture that sharing.
- `random.random()` in `randomstate` is replaced by the input `coins`. `Gamestate.RandomState` requires `|coins|` to equal the number of loop iterations, one draw per cell.
- `fromobj` on a dict that lacks a key raises `KeyError` in Python. `Obj` is a record that always has the three fields, so that case does not arise.
- Pattern cells are Python values of any type, and `any` and `1 - v` only make sense for numbers. The model uses `int`. A `bool` cell, for instance, is not modelled.
