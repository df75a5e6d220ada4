# libresult in Dafny

A model of the core of `libresult`, a small C++ library for error handling by
value. Its parts:

- **Results.** A `Result<T, E>` is either an `Ok` holding a `T` or an `Err`
  holding an `E`.
- **Storage.** The held value is allocated on the heap. The node reaches it
  through an untyped pointer kept in a separate cell (`ResultBase` and its
  `Impl`).
- **Trace.** Every result may own a `next` result, so a head owns a singly
  linked trace of the results that led to it. `push_back` appends to that
  trace and `get_trace` prints it.
- **Errors.** The companion `Exception` class keeps a message, a location and
  an owned buffer with the text "message in location" that `what()` returns.

The model has four modules:

- `Cell` (`cell.dfy`) models `ResultBase` and `Impl`. The cell is generic in
  its handle type, which is what the type erasure buys.
- `LibResult` (`result.dfy`) models the chain as one class, `Result`.
  - A constant `ok` stands for the dynamic type `Ok` or `Err`.
  - The payload is a heap `Box`, so self-assignment and `move_out` act on
    real object identity.
  - The ghost field `Repr` is everything a chain owns: nodes, cells and
    payloads.
  - `View()` is the chain's values from head to tail.

  Operations on a chain are specified by their effect on `View()` and `Repr`.
  `move_out` is specified by its effect on the single node (`Current()`).
  Destructors return the objects they release, in release order.
- `CStrings` and `LibException` (`cstrings.dfy`, `exception.dfy`) model
  `Exception`. It keeps its NUL-terminated buffers as arrays and fills them
  with `strcpy` and `strcat`, each a verified loop; `strcat` finds the end of
  the buffer's string with a `strlen` loop. The `strlen` calls that size the
  buffers are the lengths `|l|` and `|message|` of the strings.
- `Propagation` (`propagation.dfy`) models the library's example `divide`. It
  builds a fresh head and links its operands' chains behind it, so
  propagation is stated as an equation on views.

The model follows the code, not the header's comments, with two exceptions
(see "## Left out"): `OkCopy` makes the fresh copy its comment asks for, and
`unwrap`, `expect` and `get_wrapped` return the held value, where the code
returns a reference into the payload. Two behaviours of the code worth
knowing:

- The copy constructor of `Exception` takes only the location. The message
  returns to its default, `"Exception"`.
- `operator=` on `Exception` keeps its own message.

## Model

| member | source | states |
|---|---|---|
| Cell.Impl.constructor | src/libresult.cpp:22-24 | a new cell holds the handle it was created with |
| Cell.Impl.Unwrap | src/libresult.cpp:7-9 | `unwrap` reads the slot and changes nothing, so it gives back the handle the constructor or the last `Set` stored (their ensures) |
| Cell.Impl.Set | src/libresult.cpp:10-12 | after `set` the cell holds exactly the new handle; only the cell changes |
| Cell.ResultBase.constructor | src/libresult.cpp:22-24 | the base allocates a fresh `Impl` and stores the handle in it |
| Cell.ResultBase.Unwrap | src/libresult.cpp:16-18 | `ResultBase::unwrap` is the handle held by its own cell, and reads nothing else |
| Cell.ResultBase.Set | src/libresult.cpp:19-21 | `set` forwards to the cell, which then holds the new handle; nothing but the cell is modified |
| Cell.ResultBase.Destroy | src/libresult.cpp:25-27 | the destructor releases the cell and nothing else, and does not follow the stored handle |
| CStrings.FirstNul | src/libexception.cpp:15-16 | the position `strlen` stops at holds a NUL, and no NUL comes before it |
| CStrings.StrLen | src/libexception.cpp:15-16 | the scan `strcat` makes for the end of the buffer's string, as `strlen`, returns the length of the C string the buffer holds |
| CStrings.StrCpy | src/libexception.cpp:6 | after `strcpy` the buffer holds exactly the source string; bytes after its terminator are untouched |
| CStrings.StrCat | src/libexception.cpp:15-16 | after `strcat` the buffer holds its old C string followed by the source |
| LibException.Combined | src/libexception.cpp:9-17 | the combined text starts with the message; its length is the message's, plus 4 and the location's when the location is not empty; it has no NUL when neither part has one |
| LibException.CombinedDeterminesLocation | src/libexception.cpp:9-17 | for one message, equal combined texts come from equal locations, so `what()` loses no location |
| LibException.Exception.What | src/libexception.cpp:31-33 | `what()` is always the message, followed by " in " and `where()` when the location is not empty |
| LibException.Exception.Where | src/libexception.cpp:34-36 | `where()` is a C string that fills its buffer up to the terminator |
| LibException.Exception.SetLocation | src/libexception.cpp:3-18 | `set_location(l)` leaves `where() == l` and `what()` the combined text. Both buffers are fresh and separate, and the combined buffer has the source's size (message + 1, or message + location + 5) |
| LibException.Exception.WithMessage | src/libexception.cpp:19-21 | `Exception(m, l)` keeps `m` as its message and sets location `l` |
| LibException.Exception.Copy | src/libexception.cpp:22-24 | the copy has the other's location but the default message `"Exception"` |
| LibException.Exception.Default | src/libexception.cpp:25-27 | the default exception has message `"Exception"`, an empty location, and `what()` equal to `"Exception"` |
| LibException.Exception.At | src/libexception.cpp:28-30 | `Exception(l)` has the default message at location `l` |
| LibException.Exception.Assign | src/libexception.cpp:37-43 | assignment takes the other's location and rebuilds `what()` from its own message; self-assignment keeps both buffers |
| LibException.Exception.Destroy | src/libexception.cpp:44-47 | the destructor releases the location buffer, then the combined buffer, which are never the same buffer |
| LibResult.Render | include/libresult.hpp:131-136 | a node prints as its value exactly when it is `Ok`; an `Err` prints as its error's `what()` |
| LibResult.RenderAll | include/libresult.hpp:130-140 | one trace line per node, in order: `what()` for an error, the value for an `Ok` |
| LibResult.Result.GetTrace | include/libresult.hpp:130-140 | `get_trace` prints exactly `RenderAll` of the chain's values, head to tail, and changes nothing |
| LibResult.Result.IsOkMatchesPayload | include/libresult.hpp:250-252 | under the node invariant, `is_ok` holds exactly when the cell points to a `T`. The `is_ok` promise itself comes from the `Ok*` constructors, which ensure `IsOk()`, and the `Err*` constructors, which ensure `IsErr()`, on the constant tag `ok` |
| LibResult.Result.IsErr | include/libresult.hpp:250-257 | `is_err` is the negation of `is_ok` |
| LibResult.Result.GetWrapped | include/libresult.hpp:185-187 | an `Ok` yields the `T` its payload holds |
| LibResult.Result.GetError | include/libresult.hpp:352-354 | an `Err` yields the `E` its payload holds |
| LibResult.Result.Unwrap | include/libresult.hpp:66-71 | `unwrap` returns exactly when the node is `Ok`, and then gives the held `T`; otherwise it throws the held `E` |
| LibResult.Result.Expect | include/libresult.hpp:73-78 | `expect(s)` has the outcome of `unwrap` for every `s` |
| LibResult.Result.What | include/libresult.hpp:429-432 | `Err::what` is the held error's own `what()` |
| LibResult.Result.Where | include/libresult.hpp:439-442 | `Err::where` is the held error's own `where()` |
| LibResult.Result.Ok | include/libresult.hpp:208 | `Ok(t)` is a one-node valid chain `[Ok t]` with a freshly allocated payload |
| LibResult.Result.OkOwning | include/libresult.hpp:216 | `Ok(T*)` takes that very pointer as its payload; the chain is `[Ok *p]` |
| LibResult.Result.OkCopy | include/libresult.hpp:196-201 | copying an `Ok` gives a fresh payload with the same `T` |
| LibResult.Result.OkMoving | include/libresult.hpp:222 | moving an `Ok` takes its `T` into a fresh payload; the source then holds the default `T` |
| LibResult.Result.Err | include/libresult.hpp:375 | `Err(e)` is a one-node valid chain `[Err e]` with a freshly allocated payload |
| LibResult.Result.ErrOwning | include/libresult.hpp:383 | `Err(E*)` takes that very pointer as its payload |
| LibResult.Result.ErrCopy | include/libresult.hpp:368 | copying an `Err` gives a fresh payload with the same `E` |
| LibResult.Result.ErrMoving | include/libresult.hpp:389 | moving an `Err` takes its `E` into a fresh payload; the source then holds the default `E` |
| LibResult.Result.MoveOut | include/libresult.hpp:173-178 | `move_out` returns a fresh `T` with the old value and leaves the default `T` in place |
| LibResult.Result.ErrMoveOut | include/libresult.hpp:340-345 | `move_out` on an `Err` returns a fresh `E` with the old value and leaves the default `E` in place |
| LibResult.Result.AssignValue | include/libresult.hpp:275-282 | `ok = t` makes the held value `t`; assigning its own payload changes nothing; the rest of the chain is unchanged and stays valid |
| LibResult.Result.AssignOk | include/libresult.hpp:291-298 | `ok = other` copies the other's `T` in place; self-assignment changes nothing; the rest of the chain is unchanged |
| LibResult.Result.AssignOwned | include/libresult.hpp:305-313 | `ok = p` releases the old payload and installs `p`, unless `p` is already the payload; the footprint swaps exactly those two objects |
| LibResult.Result.MoveAssign | include/libresult.hpp:322-331 | a move-assignment from another `Ok` installs a fresh payload with its value, leaves the default `T` in it, and releases the old payload; from itself it changes nothing |
| LibResult.Result.AssignError | include/libresult.hpp:460-467 | `err = e` makes the held error `e`; assigning its own payload changes nothing |
| LibResult.Result.AssignErr | include/libresult.hpp:476-483 | `err = other` copies the other's `E` in place; self-assignment changes nothing |
| LibResult.Result.AssignOwnedError | include/libresult.hpp:490-498 | `err = p` releases the old payload and installs `p`, unless `p` is already the payload |
| LibResult.Result.MoveAssignErr | include/libresult.hpp:520-529 | a move-assignment from another `Err` installs its error and releases the old payload; from itself it changes nothing |
| LibResult.Result.PushBack | include/libresult.hpp:86-92 | `push_back(r)` on disjoint valid chains yields a valid chain whose values are the old ones followed by `r`'s, owning both footprints |
| LibResult.Result.Link | include/libresult.hpp:87-88 | at the tail, `next = &r` appends `r`'s chain |
| LibResult.Result.PushBackValue | include/libresult.hpp:100-106 | `push_back(t)` appends `Ok t` at the tail, allocating only fresh objects |
| LibResult.Result.PushBackError | include/libresult.hpp:114-120 | `push_back(e)` appends `Err e` at the tail, allocating only fresh objects |
| LibResult.Result.Destroy | include/libresult.hpp:162-164 | deleting a head releases every object the chain owns exactly once: three per node, no double free, no leak |
| Propagation.Divide | test/src/test_integration.cpp:33-60 | `divide(a, b)` returns a fresh head whose chain is `Divided` of the operands' chains |
| Propagation.DivideValues | test/src/test_integration.cpp:34-45 | with both operands `Ok`: the quotient, or a division-by-zero error, followed by `b`'s and then `a`'s chain |
| Propagation.DivideFailed | test/src/test_integration.cpp:46-59 | with an `Err` operand: a received-error head followed by the chains of the failed operands |
| Propagation.DividedOk | test/src/test_integration.cpp:34-45 | the result is `Ok` if and only if both operands are `Ok` and the divisor is not zero; it then holds their quotient |
| Propagation.DividedKeepsTraces | test/src/test_integration.cpp:33-60 | every failed operand's whole chain appears in the result, as do both chains when both succeed; the result length is fixed accordingly |
| Propagation.Fresh | test/src/test_integration.cpp:36-41 | `new Ok(v)` or `new Err(new E)` gives a one-node chain of fresh objects |
| Propagation.Trail | test/src/test_integration.cpp:37-38 | two `push_back`s append both chains, in call order |

## Left out

- Console output is not modelled. `get_trace` returns its lines. `unwrap`
  and `expect` on an `Err` do not print their messages.
- A thrown `E` is modelled as the `Raised` outcome of `Unwrapped`. Stack
  unwinding is not modelled.
- `delete` is not modelled as deallocation. Destructors return the released
  objects in order, and the model does not forbid using them afterwards.
- `Ok()` and `Err()` (default constructors, `new T`) are modelled only
  through the `dflt` argument that `move_out` swaps in.
- `Ok(T&&)` and `Err(E&&)` behave as the copying constructors, because
  values have no moved-from state here.
- `Ok(const Ok&)` at line 201 of `include/libresult.hpp` passes the `T`
  itself where a `void*` is expected. Its post-condition comment and TODO ask
  for a fresh copy, and `OkCopy` models that.
- `Err::operator=(E&&)` (lines 505-513 of `include/libresult.hpp`) is not
  modelled. It calls a member `move_in` that the class does not declare.
- Copying or assigning an `E` is a value copy. `E`'s own copy semantics are
  not followed. For `Exception` they are modelled separately in
  `LibException`.
- `void*` is the two-case `VoidPtr`. Casting to the wrong variant's type
  cannot be expressed, because `NodeValid` ties the pointer to the variant.
- The source's object slicing and virtual dispatch are not modelled; `ok`
  is the dynamic type.
- `LibResult.Result.What`, `LibResult.Result.Where` and
  `LibResult.Result.GetTrace` take `E::what` and `E::where` as function
  parameters. The C string they return is its characters.
- Recursion depth (stack overflow on very long chains) is not modelled.
- LibResult.Result.AssignOwned, AssignOwnedError, MoveAssign and
  MoveAssignErr are stated for the head of a chain. A node inside someone
  else's chain would need that chain's `Repr` updated too.
- LibResult.Result.AssignValue, AssignOk, AssignError and AssignErr state
  validity and the new view only when the chain was valid before (`old(Valid())`).
- LibException.Exception.SetLocation does not model releasing the old
  buffers (`delete[]`). It requires a location without NUL, which a
  `const char*` argument cannot contain anyway.
- `float` arithmetic in `divide` is exact `real` arithmetic. Rounding is not
  modelled, and neither are `nat_log` nor the rest of the example program.
- `Exception` values inside `Propagation` are their `what()` text.
- LibResult.Result.PushBack, PushBackValue and PushBackError are stated for
  the chain from the receiver. Called on a node that is itself linked behind
  another head, they do extend that head's trace in the source. In the model,
  the outer head's `Repr` is not updated, so its `Valid()` is not promised
  afterwards. No caller in the library or its example does this.
- LibResult.Result.MoveAssign and MoveAssignErr do not admit a move from a
  node of the receiver's own chain, such as `c = std::move(b)` after
  `c.push_back(b)`. The source guards only against `&other == this` and
  allows it. The model does not state the view with the other node emptied
  at its position. No caller in the library or its example does this.
- LibResult.Result.Unwrap, Expect, GetWrapped and GetError return the held
  value. The source returns a reference into the payload (`T&`/`E&`), so
  aliasing is not modelled:
  - writing through `r.unwrap()` changes the node;
  - a reference taken before `AssignValue` or `AssignOk` sees the new value;
  - after `AssignOwned` or `MoveAssign` such a reference dangles.
