# Real-time whiteboard: relay registry and client stroke machine

This project models the two pieces of sequential logic in the collaborative
whiteboard: the socket.io relay (`server/index.js`) and the client's drawing
component (`client/src/component/whiteBoard.jsx`).

The relay keeps a set of live connections and the `users` object, which maps a
socket id to the name it joined with. `join` stores the name and `disconnect`
deletes the entry. After either one, the whole roster (`Object.values(users)`)
goes to every connected socket. `draw-line` and `clear-canvas` change nothing.
They go to every connected socket except the sender.

- `Registry` models the `users` object as an insertion-ordered key sequence plus
  a key-to-name map. These are JavaScript object semantics for string keys. A
  new key goes last, re-assigning a key keeps its place, and `delete` removes it.
- `Relay` is a class holding `conns` and `users`. Each handler returns its
  outbox: a sequence of deliveries (recipient, message). `Fanout` builds the
  outbox by iterating over the target set.

The client component sends `join` only when the typed name is not blank after
`trim()`. Pressing the pointer records a position. Each move while pressed
sends one `draw-line` from the previous point to the current one, then moves
the previous point forward. Releasing stops the stroke.

- `JsText` models ECMAScript `String.prototype.trim`.
- `Whiteboard` holds a pure step specification of the pen (`After`, `Emitted`,
  `Output`), the stroke lemmas, and the `Whiteboard` class. Each of its pointer
  handlers (mouse and touch) is proved to follow that specification.
  `drawLine` is modelled by `Whiteboard.DrawLine`; both of its callers use the
  default `emit = true`, so its `emit = false` path is never taken.

The server does **not** validate names. It stores whatever it receives,
including an empty or all-blank name, and it accepts the same name from
several sockets. The blank-name check exists only on the client. The roster length is the number of
distinct joined socket ids (`Registry.RosterLength`), not the number of
distinct names.

## Model

| member | source | states |
|---|---|---|
| `Registry.Values` | server/index.js:24 | `Object.values(users)`: one entry per key, and the i-th entry is the name stored under the i-th key in insertion order |
| `Registry.Assign` | server/index.js:23 | `users[id] = name` keeps the registry well formed, stores `name` under `id`, and leaves every other key and its name unchanged |
| `Registry.Delete` | server/index.js:29 | `delete users[id]` keeps the registry well formed, removes `id`, and leaves every other key and its name unchanged (an absent id is allowed) |
| `Registry.Remove` | server/index.js:29 | the key order after a delete holds exactly the other keys and stays free of duplicates |
| `Registry.RosterLength` | server/index.js:23-24 | the roster has exactly one entry per joined socket id, whatever the names are |
| `Registry.FirstJoinAppends` | server/index.js:23-24 | the first join from an id appends its name to the end of the roster |
| `Registry.RejoinInPlace` | server/index.js:23-24 | a repeated join from an id keeps the key order and replaces only that id's roster entry, in place |
| `Registry.DeleteSplices` | server/index.js:29-30 | disconnecting a joined id removes exactly its roster entry; the other entries keep their relative order |
| `Registry.DeleteAbsent` | server/index.js:29 | disconnecting an id that never joined leaves the registry unchanged |
| `Registry.DeleteIdempotent` | server/index.js:27-30 | a second disconnect of the same id has no further effect on the registry |
| `Registry.JoinAllInOrder` | server/index.js:22-25 | joins from distinct new ids list their names in join order, once each, duplicates and empty names included |
| `Relay.Fanout` | server/index.js:24 | the outbox delivers the message to every target exactly once, and to no one else |
| `Relay.Relay.constructor` | server/index.js:16 | the relay starts with no connections and an empty `users` object |
| `Relay.Relay.Connect` | server/index.js:18 | a new connection joins the connection set; the registry is unchanged and nothing is sent |
| `Relay.Relay.Join` | server/index.js:22-25 | the sender's name is recorded, whatever it is, and every connected socket gets the current roster (sender and never-joined sockets included) |
| `Relay.Relay.Disconnect` | server/index.js:27-31 | the socket leaves the connection set, its entry (if any) is deleted, and every remaining socket gets the new roster |
| `Relay.Relay.DrawLine` | server/index.js:34-36 | the payload goes unchanged to every other connected socket and never to the sender; the registry is not consulted or changed |
| `Relay.Relay.ClearCanvas` | server/index.js:38-40 | a payload-less `clear-canvas` goes to every other connected socket and never to the sender; the registry is not consulted or changed |
| `JsText.TrimStart` | client/src/component/whiteBoard.jsx:18 | the result is a suffix of the input; everything dropped is white space, and the result does not start with white space |
| `JsText.TrimEnd` | client/src/component/whiteBoard.jsx:18 | the result is a prefix of the input; everything dropped is white space, and the result does not end with white space |
| `JsText.TrimEmptyIffBlank` | client/src/component/whiteBoard.jsx:18 | `username.trim()` is empty exactly when every character of the name is ECMAScript white space or a line terminator |
| `Whiteboard.OneMessagePerPenDownMove` | client/src/component/whiteBoard.jsx:95-102 | over any sequence of pointer events, the number of messages sent equals the number of moves that arrive while the pen is down: each such move sends exactly one, every other event sends none |
| `Whiteboard.Chain` | client/src/component/whiteBoard.jsx:97-101 | a drag through n points gives n segments; segment i ends at point i and starts where segment i-1 ended (at the press point for i = 0) |
| `Whiteboard.DragSendsChain` | client/src/component/whiteBoard.jsx:95-102 | while pressed, moving through points sends exactly the chain from the previous point, and the pen ends at the last point |
| `Whiteboard.StrokeSendsChain` | client/src/component/whiteBoard.jsx:89-106 | press, drag and release sends exactly the chain from the press point in the current colour, and leaves the pen up |
| `Whiteboard.StrokeIsChained` | client/src/component/whiteBoard.jsx:100-101 | within one stroke, each segment's end point is the next segment's start point |
| `Whiteboard.IdleMovesAreSilent` | client/src/component/whiteBoard.jsx:96 | moves while not pressed send nothing and leave the previous point unchanged |
| `Whiteboard.PointerSendsOnlyLines` | client/src/component/whiteBoard.jsx:89-106 | pointer input only ever sends `draw-line`, always in the current colour |
| `Whiteboard.Whiteboard.constructor` | client/src/component/whiteBoard.jsx:10-14 | initial state: not drawing, previous point (0, 0), colour `#000000`, empty name, not joined |
| `Whiteboard.Whiteboard.SetUsername` | client/src/component/whiteBoard.jsx:169 | the name field updates the name; it exists only before joining |
| `Whiteboard.Whiteboard.SetColor` | client/src/component/whiteBoard.jsx:198 | the colour picker sets the colour used by later segments |
| `Whiteboard.Whiteboard.HandleJoin` | client/src/component/whiteBoard.jsx:17-24 | a non-blank name sends one `join` with the untrimmed name and sets `joined`; a blank name sends nothing and leaves `joined` unchanged |
| `Whiteboard.Whiteboard.HandleMouseDown` | client/src/component/whiteBoard.jsx:89-93 | pressing starts drawing at the pointer and sends nothing |
| `Whiteboard.Whiteboard.HandleMouseMove` | client/src/component/whiteBoard.jsx:95-102 | while drawing: sends one segment from the previous point to the pointer in the current colour, then advances the previous point; otherwise sends nothing and changes nothing |
| `Whiteboard.Whiteboard.HandleMouseUp` | client/src/component/whiteBoard.jsx:104-106 | releasing stops drawing and sends nothing |
| `Whiteboard.Whiteboard.ClearCanvas` | client/src/component/whiteBoard.jsx:108-112 | sends exactly one payload-less `clear-canvas` |
| `Whiteboard.Whiteboard.HandleTouchStart` | client/src/component/whiteBoard.jsx:129-134 | touching starts drawing at the touch point and sends nothing |
| `Whiteboard.Whiteboard.HandleTouchMove` | client/src/component/whiteBoard.jsx:136-142 | same as a mouse move, at the touch point |
| `Whiteboard.Whiteboard.HandleTouchEnd` | client/src/component/whiteBoard.jsx:144-146 | lifting the finger stops drawing and sends nothing |

The pointer handlers and `ClearCanvas` require `joined`, because the canvas,
its touch listeners and the clear button exist only after joining
(whiteBoard.jsx:116, 160-176). The class invariant `Valid()`, which every
handler preserves, says that `joined` implies a non-blank name. From the two,
`HandleMouseMove`, `HandleTouchMove` and `ClearCanvas` each ensure that they
send something only when the name is not blank: this is the join gate.

## Left out

- Transport and library plumbing: socket.io server and client setup, express,
  cors with `origin: "*"`, `server.listen` and `console.log`. `io.emit` and
  `socket.broadcast.emit` are modelled only as an outbox over a recipient set.
- Per-sender FIFO ordering, best-effort delivery and the timing of connection
  teardown. These are properties of socket.io and TCP, not of these files. A
  socket leaves `conns` when its `disconnect` handler runs.
- Relay.Fanout: does not fix the order of deliveries across recipients. The
  library sends in its own internal order, so the model promises only that
  each target gets the message exactly once.
- Relay.Relay.Connect: fresh, unique socket ids are the library's job and are
  taken as a precondition.
- Relay.Relay.Join: the relay stores whatever `join` payload arrives (a number,
  an object, or `undefined` when none is sent) and `Object.values` returns it
  as is. The model types the name as a string, which is what the client sends.
- Relay.Relay.DrawLine: the relay forwards any `data` value unchanged. The
  model types it as the segment shape that the client sends.
- Registry: JavaScript puts integer-like keys ahead of other keys. socket.io ids
  are never integer-like, so plain insertion order is modelled.
- JsText: Dafny characters are Unicode scalar values, while JavaScript strings
  are UTF-16. Every ECMAScript white-space code point is in the Basic
  Multilingual Plane, so `trim` behaves the same under both.
- Canvas painting (`beginPath`, `stroke`, `clearRect`), and the handlers for
  received events, which only paint or set React state
  (whiteBoard.jsx:43-61). Nothing from them reaches the relay.
- Canvas sizing from the window, and the touch-position arithmetic with
  `getBoundingClientRect`. Both are floating-point browser geometry. Points
  are opaque integer pairs, taken as the handlers' input.
- React wiring: `useEffect` subscribe and unsubscribe, and the re-registering
  of touch listeners when `isDrawing` or `color` changes. The handlers are
  modelled as reading the current state. Also left out: JSX rendering,
  `ChromePicker` (only its `onChange` is modelled, as `SetColor`), the
  `alert` on a blank name, and `client/src/App.js`, which is UI composition.
