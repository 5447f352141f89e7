/**
 * Who may use the playback endpoint: any number of clients run `open`, `close` and the other
 * control calls, every compare-exchange and every store of the two flags a step of its own.
 */
module Ownership {
  /** Where a client is in its code. */
  datatype Place =
    | Outside
    | OpenLocking            // holds `opened`, about to try the control lock
    | OpenBacking            // lost the lock, about to give `opened` back
    | OpenBody               // in the body of open
    | Owner
    | CloseBody              // in the body of close, before it clears `opened`
    | CloseTail              // after that, before the lock is dropped
    | ControlBody(owner: bool)

  datatype World = World(isOpen: bool, locked: bool, places: map<nat, Place>)

  datatype Step =
    | OpenSwap | OpenLock | OpenUndo | OpenDone
    | CloseLock | CloseStore | CloseDone
    | ControlLock | ControlDone

  function At(w: World, client: nat): Place {
    if client in w.places then w.places[client] else Outside
  }

  function Move(w: World, client: nat, place: Place): World {
    w.(places := w.places[client := place])
  }

  predicate InBody(place: Place) {
    place.OpenBody? || place.CloseBody? || place.CloseTail? || place.ControlBody?
  }

  /** The client's open has taken `opened` and nothing of its own has given it back. */
  predicate HoldsOpen(place: Place) {
    || place.OpenLocking? || place.OpenBacking? || place.OpenBody? || place.Owner? || place.CloseBody?
    || (place.ControlBody? && place.owner)
  }

  predicate Enabled(w: World, client: nat, step: Step) {
    var place := At(w, client);
    match step
    case OpenSwap => place.Outside?
    case OpenLock => place.OpenLocking?
    case OpenUndo => place.OpenBacking?
    case OpenDone => place.OpenBody?
    case CloseLock => place.Owner?
    case CloseStore => place.CloseBody?
    case CloseDone => place.CloseTail?
    case ControlLock => place.Outside? || place.Owner?
    case ControlDone => place.ControlBody?
  }

  function Perform(w: World, client: nat, step: Step): World
    requires Enabled(w, client, step)
  {
    match step
    case OpenSwap => if w.isOpen then w else Move(w.(isOpen := true), client, OpenLocking)
    case OpenLock => if w.locked then Move(w, client, OpenBacking) else Move(w.(locked := true), client, OpenBody)
    case OpenUndo => Move(w.(isOpen := false), client, Outside)
    case OpenDone => Move(w.(locked := false), client, Owner)
    case CloseLock => if w.locked then w else Move(w.(locked := true), client, CloseBody)
    case CloseStore => Move(w.(isOpen := false), client, CloseTail)
    case CloseDone => Move(w.(locked := false), client, Outside)
    case ControlLock => if w.locked then w else Move(w.(locked := true), client, ControlBody(At(w, client).Owner?))
    case ControlDone => Move(w.(locked := false), client, if At(w, client).owner then Owner else Outside)
  }

  /** Only one client is inside, and only if the lock is held; only one holds `opened`, and only if it is set. */
  ghost predicate Good(w: World) {
    && (forall x: nat :: InBody(At(w, x)) ==> w.locked)
    && (forall x: nat :: HoldsOpen(At(w, x)) ==> w.isOpen)
    && (forall x: nat, y: nat :: InBody(At(w, x)) && InBody(At(w, y)) ==> x == y)
    && (forall x: nat, y: nat :: HoldsOpen(At(w, x)) && HoldsOpen(At(w, y)) ==> x == y)
  }

  /** A client's move is safe if it enters a body only through a free lock, and takes `opened` only while clear. */
  lemma MoveKeeps(w: World, client: nat, place: Place, w': World)
    requires Good(w) && w'.places == w.places[client := place]
    requires InBody(place) ==> w'.locked && (InBody(At(w, client)) || !w.locked)
    requires HoldsOpen(place) ==> w'.isOpen && (HoldsOpen(At(w, client)) || !w.isOpen)
    requires w.locked && !w'.locked ==> InBody(At(w, client)) && !InBody(place)
    requires w.isOpen && !w'.isOpen ==> HoldsOpen(At(w, client)) && !HoldsOpen(place)
    ensures Good(w')
  {
    assert forall x: nat :: At(w', x) == if x == client then place else At(w, x);
  }

  lemma StepKeeps(w: World, client: nat, step: Step)
    requires Good(w) && Enabled(w, client, step)
    ensures Good(Perform(w, client, step))
  {
    var w' := Perform(w, client, step);
    if w' != w {
      MoveKeeps(w, client, At(w', client), w');
    }
  }

  predicate Feasible(w: World, run: seq<(nat, Step)>)
    decreases run
  {
    run == [] || (Enabled(w, run[0].0, run[0].1) && Feasible(Perform(w, run[0].0, run[0].1), run[1..]))
  }

  function After(w: World, run: seq<(nat, Step)>): World
    requires Feasible(w, run)
    decreases run
  {
    if run == [] then w else After(Perform(w, run[0].0, run[0].1), run[1..])
  }

  lemma {:induction false} RunKeeps(w: World, run: seq<(nat, Step)>)
    requires Good(w) && Feasible(w, run)
    ensures Good(After(w, run))
    decreases run
  {
    if run != [] {
      StepKeeps(w, run[0].0, run[0].1);
      RunKeeps(Perform(w, run[0].0, run[0].1), run[1..]);
    }
  }

  const Start := World(false, false, map[])

  /**
   * In every interleaving of clients that close only what they opened, at most one client holds the
   * endpoint open, from the swap in its open to the store in its close or the undo of a failed open,
   * whatever it does in between; and no two are inside a control body.
   */
  lemma OneOwnerOneBody(run: seq<(nat, Step)>, x: nat, y: nat)
    requires Feasible(Start, run) && x != y
    ensures var w := After(Start, run);
            && !(HoldsOpen(At(w, x)) && HoldsOpen(At(w, y)))
            && !(InBody(At(w, x)) && InBody(At(w, y)))
  {
    RunKeeps(Start, run);
  }
}
