/**
 * The game-session store of stores/game.ts: a strict finite state machine over
 * the session phases, with an event emitter that announces every successful
 * transition and relays frame ticks.
 */
module GameStore {
  import opened Wrappers

  /** The phases of a session (stores/game.ts:3-8). */
  datatype GameState = Instruction | Practice | PreCountdown | Playing | Finished

  /** The event names the store's emitter knows (stores/game.ts:10-17). */
  datatype EventName =
    | StartPractice
    | StartPreCountdown
    | StartMainCountdown
    | Finish
    | Reset
    | TickRecord

  /** One call of the emitter: the event name and the arguments passed with it. */
  datatype Emission = Emission(name: EventName, args: seq<int>)

  /** A registered listener: the event it listens to and an identity for its callback. */
  datatype Subscriber = Subscriber(event: EventName, callback: nat)

  /** The error thrown by an invalid transition; its message names both values. */
  datatype TransitionError = InvalidTransition(from: GameState, event: EventName)

  /**
   * The transition table: the state an event leads to from `s`, or None when
   * the pair is not in the table.
   */
  function NextState(s: GameState, e: EventName): Option<GameState>
  {
    match e
    case StartPractice => if s == Instruction then Some(Practice) else None
    case StartPreCountdown => if s == Practice then Some(PreCountdown) else None
    case StartMainCountdown => if s == PreCountdown then Some(Playing) else None
    case Finish => if s == Playing then Some(Finished) else None
    case Reset => Some(Instruction)
    case TickRecord => None
  }

  /** Position of a phase along the forward path of a session. */
  function Rank(s: GameState): nat
  {
    match s
    case Instruction => 0
    case Practice => 1
    case PreCountdown => 2
    case Playing => 3
    case Finished => 4
  }

  /** The only events that lead from `instruction` to `finished` without a reset. */
  const HappyPath: seq<EventName> := [StartPractice, StartPreCountdown, StartMainCountdown, Finish]

  /** The five pairs of the table, written out as a list of (from, event, to). */
  predicate InTable(s: GameState, e: EventName, t: GameState)
  {
    || (s, e, t) == (Instruction, StartPractice, Practice)
    || (s, e, t) == (Practice, StartPreCountdown, PreCountdown)
    || (s, e, t) == (PreCountdown, StartMainCountdown, Playing)
    || (s, e, t) == (Playing, Finish, Finished)
    || (e, t) == (Reset, Instruction)
  }

  /** The table is exact: a transition succeeds exactly for the listed pairs. */
  lemma TableExact(s: GameState, e: EventName, t: GameState)
    ensures NextState(s, e) == Some(t) <==> InTable(s, e, t)
  {
  }

  /** Every pair outside the table, `tickRecord` included, is refused. */
  lemma OutsideTableFails(s: GameState, e: EventName)
    ensures NextState(s, e) == None <==> forall t: GameState :: !InTable(s, e, t)
  {
    if NextState(s, e).Some? {
      TableExact(s, e, NextState(s, e).value);
    }
  }

  /** `reset` succeeds from every state and yields `instruction`. */
  lemma ResetFromAnyState(s: GameState)
    ensures NextState(s, Reset) == Some(Instruction)
  {
  }

  /** Every successful event other than `reset` moves exactly one phase forward. */
  lemma ForwardByOne(s: GameState, e: EventName)
    requires e != Reset && NextState(s, e).Some?
    ensures Rank(NextState(s, e).value) == Rank(s) + 1
    ensures HappyPath[Rank(s)] == e
  {
  }

  /** The state reached by issuing `evs` in order from `s`, or None once one of them throws. */
  function Run(s: GameState, evs: seq<EventName>): Option<GameState>
    decreases |evs|
  {
    if evs == [] then Some(s)
    else match NextState(s, evs[0])
      case None => None
      case Some(t) => Run(t, evs[1..])
  }

  /** Running two sequences one after the other is running their concatenation. */
  lemma {:induction false} RunAppend(s: GameState, a: seq<EventName>, b: seq<EventName>)
    ensures Run(s, a + b) == if Run(s, a).Some? then Run(Run(s, a).value, b) else None
    decreases |a|
  {
    if a == [] {
      assert a + b == b;
    } else {
      assert (a + b)[0] == a[0];
      assert (a + b)[1..] == a[1..] + b;
      if NextState(s, a[0]).Some? {
        RunAppend(NextState(s, a[0]).value, a[1..], b);
      }
    }
  }

  /** Without a reset, `finished` is reached from `s` exactly by the rest of the forward path. */
  lemma {:induction false} RunWithoutReset(s: GameState, evs: seq<EventName>)
    requires Reset !in evs
    ensures Run(s, evs) == Some(Finished) <==> evs == HappyPath[Rank(s)..]
    decreases |evs|
  {
    if evs == [] {
      assert HappyPath[Rank(s)..] == [] <==> s == Finished;
    } else {
      match NextState(s, evs[0])
      case None =>
        assert Rank(s) < 4 ==> HappyPath[Rank(s)] != evs[0];
      case Some(t) =>
        ForwardByOne(s, evs[0]);
        assert Reset !in evs[1..];
        RunWithoutReset(t, evs[1..]);
        assert HappyPath[Rank(s)..][1..] == HappyPath[Rank(t)..];
    }
  }

  /** Splitting at the last reset: what follows it must be the whole forward path. */
  lemma RunAcrossLastReset(s: GameState, evs: seq<EventName>)
    requires Reset in evs
    ensures var i := LastReset(evs);
      Run(s, evs) == Some(Finished) <==> Run(s, evs[..i]).Some? && evs[i + 1..] == HappyPath
  {
    var i := LastReset(evs);
    assert evs == evs[..i] + ([Reset] + evs[i + 1..]);
    RunAppend(s, evs[..i], [Reset] + evs[i + 1..]);
    assert ([Reset] + evs[i + 1..])[1..] == evs[i + 1..];
    RunWithoutReset(Instruction, evs[i + 1..]);
  }

  /** A reset followed by the whole forward path is necessarily the last reset. */
  lemma ResetBeforePathIsLast(evs: seq<EventName>, j: nat)
    requires j < |evs| && evs[j] == Reset && evs[j + 1..] == HappyPath
    ensures j == LastReset(evs)
  {
    var i := LastReset(evs);
    assert Reset !in HappyPath;
  }

  /**
   * `finished` is reached from `s` only along the forward path: either no reset
   * occurs and the events are the rest of the path from `s`, or, after some
   * reset that is reached without error, the events are the whole path.
   */
  lemma FinishedOnlyAlongPath(s: GameState, evs: seq<EventName>)
    ensures Run(s, evs) == Some(Finished) <==>
      || (Reset !in evs && evs == HappyPath[Rank(s)..])
      || (exists i :: 0 <= i < |evs| && evs[i] == Reset && Run(s, evs[..i]).Some? && evs[i + 1..] == HappyPath)
  {
    if Reset !in evs {
      RunWithoutReset(s, evs);
    } else {
      RunAcrossLastReset(s, evs);
      if exists j :: 0 <= j < |evs| && evs[j] == Reset && Run(s, evs[..j]).Some? && evs[j + 1..] == HappyPath {
        var j :| 0 <= j < |evs| && evs[j] == Reset && Run(s, evs[..j]).Some? && evs[j + 1..] == HappyPath;
        ResetBeforePathIsLast(evs, j);
      }
    }
  }

  /** Index of the last `reset` in a sequence that holds one. */
  function LastReset(evs: seq<EventName>): (i: nat)
    requires Reset in evs
    ensures i < |evs| && evs[i] == Reset && Reset !in evs[i + 1..]
    decreases |evs|
  {
    if evs[|evs| - 1] == Reset then |evs| - 1
    else
      assert Reset in evs[..|evs| - 1] by {
        var k :| 0 <= k < |evs| && evs[k] == Reset;
        assert evs[..|evs| - 1][k] == Reset;
      }
      var i := LastReset(evs[..|evs| - 1]);
      assert evs[i + 1..] == evs[..|evs| - 1][i + 1..] + [evs[|evs| - 1]];
      i
  }

  /** `transition('startPractice')` then `transition('finish')` from `instruction`: the first succeeds, the second throws. */
  lemma PracticeThenFinishFails()
    ensures NextState(Instruction, StartPractice) == Some(Practice)
    ensures NextState(Practice, Finish) == None
    ensures Run(Instruction, [StartPractice, Finish]) == None
  {
  }

  /** The store built by `useGameStore` (stores/game.ts:19-85). */
  class Store {
    /** The session phase; read-only to consumers. */
    var state: GameState
    /** Every call of the emitter so far, oldest first. */
    var emitted: seq<Emission>
    /** Every listener registered through `on`, in registration order. */
    var subscribers: seq<Subscriber>

    constructor ()
      ensures state == Instruction && emitted == [] && subscribers == []
    {
      state := Instruction;
      emitted := [];
      subscribers := [];
    }

    /**
     * Requests a transition. A pair outside the table throws before anything
     * changes; otherwise the state is updated and then the event is emitted once.
     */
    method Transition(event: EventName) returns (outcome: Outcome<TransitionError>)
      modifies this`state, this`emitted
      ensures NextState(old(state), event).None? ==>
        && outcome == Fail(InvalidTransition(old(state), event))
        && state == old(state)
        && emitted == old(emitted)
      ensures NextState(old(state), event).Some? ==>
        && outcome == Pass
        && state == NextState(old(state), event).value
        && emitted == old(emitted) + [Emission(event, [])]
    {
      var nextState: Option<GameState> := None;
      if event == StartPractice {
        if state == Instruction {
          nextState := Some(Practice);
        }
      }
      if event == StartPreCountdown {
        if state == Practice {
          nextState := Some(PreCountdown);
        }
      }
      if event == StartMainCountdown {
        if state == PreCountdown {
          nextState := Some(Playing);
        }
      }
      if event == Finish {
        if state == Playing {
          nextState := Some(Finished);
        }
      }
      if event == Reset {
        nextState := Some(Instruction);
      }
      if nextState.None? {
        return Fail(InvalidTransition(state, event));
      }
      state := nextState.value;
      emitted := emitted + [Emission(event, [])];
      outcome := Pass;
    }

    /** Registers `callback` for `event`; the unsubscribe on unmount is not modelled. */
    method On(event: EventName, callback: nat)
      modifies this`subscribers
      ensures subscribers == old(subscribers) + [Subscriber(event, callback)]
    {
      subscribers := subscribers + [Subscriber(event, callback)];
    }

    /** Broadcasts a frame number; the state is not touched. */
    method TickRecord(frame: int)
      modifies this`emitted
      ensures emitted == old(emitted) + [Emission(EventName.TickRecord, [frame])]
    {
      emitted := emitted + [Emission(EventName.TickRecord, [frame])];
    }
  }
}
