/** Rebuilding a JSON value from the event stream of Postgres' jsonb iterator.

    The reader keeps two stacks: the values being built, and the keys whose values are still open. */
module JsonbReader {
  import opened Options

  datatype Json =
    | Null
    | Bool(value: bool)
    | Number(text: string)
    | Str(chars: string)
    | Array(items: seq<Json>)
    | Object(pairs: seq<Pair>)

  datatype Pair = Pair(key: string, value: Json)

  datatype Event =
    | BeginArray(rawScalar: bool)
    | EndArray
    | BeginObject
    | EndObject
    | Key(key: Json)
    | Value(scalar: Json)
    | Elem(scalar: Json)
    | Done

  datatype Outcome = Malformed | Read(value: Json)

  predicate IsContainer(v: Json) {
    v.Array? || v.Object?
  }

  // ---------- The event stream of a value ----------

  function Begin(v: Json): Event
    requires IsContainer(v)
  {
    if v.Array? then BeginArray(false) else BeginObject
  }

  function End(v: Json): Event
    requires IsContainer(v)
  {
    if v.Array? then EndArray else EndObject
  }

  function Body(v: Json): seq<Event>
    requires IsContainer(v)
    decreases v, 0
  {
    if v.Array? then EmitItems(v.items) else EmitPairs(v.pairs)
  }

  function Emit(v: Json): seq<Event>
    requires IsContainer(v)
    decreases v, 1
  {
    [Begin(v)] + Body(v) + [End(v)]
  }

  function EmitItems(items: seq<Json>): seq<Event>
    decreases items, 1
  {
    if items == [] then []
    else (if IsContainer(items[0]) then Emit(items[0]) else [Elem(items[0])]) + EmitItems(items[1..])
  }

  function EmitPairs(pairs: seq<Pair>): seq<Event>
    decreases pairs, 1
  {
    if pairs == [] then []
    else
      var v := pairs[0].value;
      [Key(Str(pairs[0].key))] + (if IsContainer(v) then Emit(v) else [Value(v)]) + EmitPairs(pairs[1..])
  }

  /** An event of a stream carries at most a scalar. */
  predicate Flat(e: Event) {
    match e
    case Elem(v) => !IsContainer(v)
    case Value(v) => !IsContainer(v)
    case Key(v) => v.Str?
    case _ => true
  }

  ghost predicate AllFlat(events: seq<Event>) {
    forall i :: 0 <= i < |events| ==> Flat(events[i])
  }

  /** A container is emitted piece by piece, between the events of its own kind. */
  lemma {:induction false} EmitIsFlat(v: Json)
    requires IsContainer(v)
    ensures AllFlat(Emit(v)) && 2 <= |Emit(v)|
    ensures Emit(v)[0] == if v.Array? then BeginArray(false) else BeginObject
    ensures Emit(v)[|Emit(v)| - 1] == if v.Array? then EndArray else EndObject
    decreases v, 1
  {
    if v.Array? {
      ItemsAreFlat(v.items);
    } else {
      PairsAreFlat(v.pairs);
    }
  }

  lemma {:induction false} ItemsAreFlat(items: seq<Json>)
    ensures AllFlat(EmitItems(items))
    decreases items, 1
  {
    if items != [] {
      ItemsAreFlat(items[1..]);
      if IsContainer(items[0]) {
        EmitIsFlat(items[0]);
      }
    }
  }

  lemma {:induction false} PairsAreFlat(pairs: seq<Pair>)
    ensures AllFlat(EmitPairs(pairs))
    decreases pairs, 1
  {
    if pairs != [] {
      PairsAreFlat(pairs[1..]);
      if IsContainer(pairs[0].value) {
        EmitIsFlat(pairs[0].value);
      }
    }
  }

  /** A scalar document is stored as an array of one element, flagged as a raw scalar. */
  function Stream(v: Json): seq<Event> {
    (if IsContainer(v) then Emit(v) else [BeginArray(true), Elem(v), EndArray]) + [Done]
  }

  /** Object keys are unique at every level, as jsonb guarantees. */
  predicate UniqueKeys(v: Json) {
    match v
    case Array(items) => forall i :: 0 <= i < |items| ==> UniqueKeys(items[i])
    case Object(pairs) =>
      && (forall i :: 0 <= i < |pairs| ==> UniqueKeys(pairs[i].value))
      && KeysDiffer(pairs)
    case _ => true
  }

  predicate KeysDiffer(pairs: seq<Pair>) {
    forall i, j :: 0 <= i < j < |pairs| ==> pairs[i].key != pairs[j].key
  }

  // ---------- The reader ----------

  datatype State = State(stack: seq<Json>, danglingKeys: seq<string>, isScalar: bool)

  /** Inserting into a map replaces the value of a key that is already there. */
  function Insert(pairs: seq<Pair>, key: string, value: Json): seq<Pair> {
    if pairs == [] then [Pair(key, value)]
    else if pairs[0].key == key then [Pair(key, value)] + pairs[1..]
    else [pairs[0]] + Insert(pairs[1..], key, value)
  }

  /** A new key comes last; one that is there keeps its place, and no other value changes. */
  lemma {:induction false} InsertFacts(pairs: seq<Pair>, key: string, value: Json, i: nat)
    requires KeysDiffer(pairs)
    ensures (forall j :: 0 <= j < |pairs| ==> pairs[j].key != key) ==> Insert(pairs, key, value) == pairs + [Pair(key, value)]
    ensures i < |pairs| && pairs[i].key == key ==> Insert(pairs, key, value) == pairs[i := Pair(key, value)]
  {
    if pairs != [] {
      assert forall j :: 0 <= j < |pairs[1..]| ==> pairs[1..][j] == pairs[j + 1];
      InsertFacts(pairs[1..], key, value, if i > 0 then i - 1 else 0);
    }
  }

  function Top(st: State): Json
    requires st.stack != []
  {
    st.stack[|st.stack| - 1]
  }

  function Push(st: State, v: Json): State {
    st.(stack := st.stack + [v])
  }

  function ReplaceTop(st: State, v: Json): State
    requires st.stack != []
  {
    st.(stack := st.stack[..|st.stack| - 1] + [v])
  }

  /** An array or object ends: unless it is the root, it becomes a value of the frame below. */
  function Close(st: State): Option<State> {
    if |st.stack| <= 1 then Some(st)
    else
      var value := Top(st);
      var below := st.(stack := st.stack[..|st.stack| - 1]);
      match Top(below)
      case Array(items) => Some(ReplaceTop(below, Array(items + [value])))
      case Object(pairs) =>
        if st.danglingKeys == [] then None
        else
          var n := |st.danglingKeys| - 1;
          Some(ReplaceTop(below, Object(Insert(pairs, st.danglingKeys[n], value))).(danglingKeys := st.danglingKeys[..n]))
      case _ => None
  }

  /** The event that follows a key opens a container or is the key's scalar value. */
  function AfterKey(st: State, key: string, next: Event): Option<State> {
    match next
    case Value(v) =>
      if st.stack != [] && Top(st).Object? then Some(ReplaceTop(st, Object(Insert(Top(st).pairs, key, v)))) else None
    case BeginObject => Some(Push(st, Object([])).(danglingKeys := st.danglingKeys + [key]))
    case BeginArray(_) => Some(Push(st, Array([])).(danglingKeys := st.danglingKeys + [key]))
    case _ => None
  }

  /** One round of the loop: the new state and the number of events consumed. */
  function Step(st: State, events: seq<Event>): (r: Option<(State, nat)>)
    requires events != [] && !events[0].Done?
    ensures r.Some? ==> 1 <= r.value.1 <= |events|
  {
    match events[0]
    case BeginArray(raw) => Some((Push(st, Array([])).(isScalar := st.isScalar || raw), 1))
    case BeginObject => Some((Push(st, Object([])), 1))
    case EndArray => Advance(Close(st), 1)
    case EndObject => Advance(Close(st), 1)
    case Key(key) => if key.Str? && |events| > 1 then Advance(AfterKey(st, key.chars, events[1]), 2) else None
    case Value(v) => Some((Push(st, v), 1))
    case Elem(v) =>
      if st.stack != [] && Top(st).Array? then Some((ReplaceTop(st, Array(Top(st).items + [v])), 1)) else None
  }

  function Advance(st: Option<State>, consumed: nat): Option<(State, nat)> {
    if st.None? then None else Some((st.value, consumed))
  }

  function Finish(st: State): Outcome {
    if st.stack == [] then Malformed
    else if Top(st).Array? && st.isScalar then
      var items := Top(st).items;
      if items == [] then Malformed else Read(items[|items| - 1])
    else Read(Top(st))
  }

  /** Past the end of a value the iterator keeps reporting that it is done. */
  function Run(st: State, events: seq<Event>): Outcome
    decreases |events|
  {
    if events == [] || events[0].Done? then Finish(st)
    else
      var step := Step(st, events);
      if step.None? then Malformed else Run(step.value.0, events[step.value.1..])
  }

  function Start(): State {
    State([], [], false)
  }

  method CloseFrame(stack: seq<Json>, keys: seq<string>, ghost isScalar: bool)
    returns (ok: bool, stack': seq<Json>, keys': seq<string>)
    ensures ok <==> Close(State(stack, keys, isScalar)).Some?
    ensures ok ==> State(stack', keys', isScalar) == Close(State(stack, keys, isScalar)).value
  {
    ok, stack', keys' := true, stack, keys;
    var n := |stack|;
    if n > 1 {
      var value := stack[n - 1];
      match stack[n - 2] {
        case Array(items) => stack' := stack[..n - 2] + [Array(items + [value])];
        case Object(pairs) =>
          if keys == [] {
            return false, stack, keys;
          }
          var k := |keys| - 1;
          stack' := stack[..n - 2] + [Object(Insert(pairs, keys[k], value))];
          keys' := keys[..k];
        case _ => ok := false;
      }
      assert stack[..n - 1][..n - 2] == stack[..n - 2];
    }
  }

  method ReadValueOf(key: string, next: Event, stack: seq<Json>, keys: seq<string>, ghost isScalar: bool)
    returns (ok: bool, stack': seq<Json>, keys': seq<string>)
    ensures ok <==> AfterKey(State(stack, keys, isScalar), key, next).Some?
    ensures ok ==> State(stack', keys', isScalar) == AfterKey(State(stack, keys, isScalar), key, next).value
  {
    ok, stack', keys' := true, stack, keys;
    var n := |stack|;
    match next {
      case Value(value) =>
        if n == 0 || !stack[n - 1].Object? {
          return false, stack, keys;
        }
        stack' := stack[..n - 1] + [Object(Insert(stack[n - 1].pairs, key, value))];
      case BeginObject =>
        keys', stack' := keys + [key], stack + [Object([])];
      case BeginArray(_) =>
        keys', stack' := keys + [key], stack + [Array([])];
      case _ => ok := false;
    }
  }

  /** The reader's loop over the event stream. */
  method JsonbIterate(events: seq<Event>) returns (r: Outcome)
    ensures r == Run(Start(), events)
  {
    var stack: seq<Json>, keys: seq<string>, isScalar := [], [], false;
    var i := 0;
    while i < |events| && !events[i].Done?
      invariant 0 <= i <= |events|
      invariant Run(State(stack, keys, isScalar), events[i..]) == Run(Start(), events)
    {
      var ok := true;
      var n := |stack|;
      ghost var st, rest := State(stack, keys, isScalar), events[i..];
      assert Step(st, rest).None? ==> Run(Start(), events) == Malformed;
      match events[i] {
        case BeginArray(raw) =>
          isScalar := isScalar || raw;
          stack := stack + [Array([])];
        case BeginObject =>
          stack := stack + [Object([])];
        case Key(key) =>
          if !key.Str? || i + 1 == |events| {
            return Malformed;
          }
          i := i + 1;
          ok, stack, keys := ReadValueOf(key.chars, events[i], stack, keys, isScalar);
        case Value(value) =>
          stack := stack + [value];
        case Elem(value) =>
          if n == 0 || !stack[n - 1].Array? {
            return Malformed;
          }
          stack := stack[..n - 1] + [Array(stack[n - 1].items + [value])];
        case _ =>
          ok, stack, keys := CloseFrame(stack, keys, isScalar);
      }
      if !ok {
        return Malformed;
      }
      i := i + 1;
      assert Step(st, rest).Some? && Step(st, rest).value.0 == State(stack, keys, isScalar);
      assert rest[Step(st, rest).value.1..] == events[i..];
    }
    r := Finish(State(stack, keys, isScalar));
  }

  // ---------- Reading back what was emitted ----------

  /** How many open frames have an object as their parent. */
  function ObjectParents(stack: seq<Json>): nat {
    if |stack| <= 1 then 0
    else ObjectParents(stack[..|stack| - 1]) + if stack[|stack| - 2].Object? then 1 else 0
  }

  /** There is one dangling key for each open frame whose parent is an object. */
  predicate Aligned(st: State) {
    |st.danglingKeys| == ObjectParents(st.stack)
  }

  /** The reader, failing as soon as the two stacks are not aligned. */
  function CheckedRun(st: State, events: seq<Event>): Outcome
    decreases |events|
  {
    if !Aligned(st) then Malformed
    else if events == [] || events[0].Done? then Finish(st)
    else
      var step := Step(st, events);
      if step.None? then Malformed else CheckedRun(step.value.0, events[step.value.1..])
  }

  lemma {:induction false} CheckedRunIsRun(st: State, events: seq<Event>)
    requires CheckedRun(st, events).Read?
    ensures Run(st, events) == CheckedRun(st, events)
    decreases |events|
  {
    if events != [] && !events[0].Done? {
      var step := Step(st, events);
      CheckedRunIsRun(step.value.0, events[step.value.1..]);
    }
  }

  /** The count looks at the kinds of all frames but the top one. */
  lemma CountBelow(base: seq<Json>, a: Json, b: Json)
    ensures ObjectParents(base + [a]) == ObjectParents(base + [b])
    ensures ObjectParents(base + [a, b]) == ObjectParents(base + [a]) + if a.Object? then 1 else 0
  {
    assert (base + [a])[..|base|] == base == (base + [b])[..|base|];
    assert (base + [a, b])[..|base| + 1] == base + [a];
  }

  function Empty(v: Json): Json
    requires IsContainer(v)
  {
    if v.Array? then Array([]) else Object([])
  }

  lemma {:induction false} InsertNew(pairs: seq<Pair>, key: string, value: Json)
    requires forall i :: 0 <= i < |pairs| ==> pairs[i].key != key
    ensures Insert(pairs, key, value) == pairs + [Pair(key, value)]
  {
    if pairs != [] {
      InsertNew(pairs[1..], key, value);
    }
  }

  lemma InsertNext(here: seq<Pair>, pairs: seq<Pair>)
    requires pairs != [] && KeysDiffer(here + pairs)
    ensures Insert(here, pairs[0].key, pairs[0].value) == here + [pairs[0]]
  {
    var all := here + pairs;
    assert forall i :: 0 <= i < |here| ==> all[i] == here[i] && all[i].key != all[|here|].key;
    InsertNew(here, pairs[0].key, pairs[0].value);
  }

  lemma OneStep(st: State, events: seq<Event>, next: State, n: nat, rest: seq<Event>)
    requires Aligned(st) && events != [] && !events[0].Done?
    requires Step(st, events) == Some((next, n)) && events[n..] == rest
    ensures CheckedRun(st, events) == CheckedRun(next, rest)
  {
  }

  // What each event does to a state whose top frames are written out.

  lemma BeginIs(st: State, v: Json, rest: seq<Event>)
    requires IsContainer(v)
    ensures Step(st, [Begin(v)] + rest) == Some((Push(st, Empty(v)), 1))
  {
  }

  lemma ElemIs(base: seq<Json>, here: seq<Json>, keys: seq<string>, sc: bool, v: Json, rest: seq<Event>)
    ensures Step(State(base + [Array(here)], keys, sc), [Elem(v)] + rest) ==
            Some((State(base + [Array(here + [v])], keys, sc), 1))
  {
    assert (base + [Array(here)])[..|base|] == base;
  }

  lemma EndInArrayIs(base: seq<Json>, here: seq<Json>, keys: seq<string>, sc: bool, v: Json)
    ensures Close(State(base + [Array(here), v], keys, sc)) == Some(State(base + [Array(here + [v])], keys, sc))
  {
    assert (base + [Array(here), v])[..|base| + 1] == base + [Array(here)];
    assert (base + [Array(here)])[..|base|] == base;
  }

  lemma EndInObjectIs(base: seq<Json>, here: seq<Pair>, keys: seq<string>, key: string, sc: bool, v: Json)
    ensures Close(State(base + [Object(here), v], keys + [key], sc)) ==
            Some(State(base + [Object(Insert(here, key, v))], keys, sc))
  {
    assert (base + [Object(here), v])[..|base| + 1] == base + [Object(here)];
    assert (base + [Object(here)])[..|base|] == base && (keys + [key])[..|keys|] == keys;
  }

  lemma EndIs(st: State, v: Json, rest: seq<Event>)
    requires IsContainer(v)
    ensures Step(st, [End(v)] + rest) == Advance(Close(st), 1)
  {
  }

  lemma KeyValueIs(base: seq<Json>, here: seq<Pair>, keys: seq<string>, key: string, sc: bool, v: Json, rest: seq<Event>)
    ensures Step(State(base + [Object(here)], keys, sc), [Key(Str(key)), Value(v)] + rest) ==
            Some((State(base + [Object(Insert(here, key, v))], keys, sc), 2))
  {
    assert (base + [Object(here)])[..|base|] == base;
  }

  lemma KeyBeginIs(st: State, key: string, v: Json, rest: seq<Event>)
    requires IsContainer(v)
    ensures Step(st, [Key(Str(key)), Begin(v)] + rest) ==
            Some((Push(st, Empty(v)).(danglingKeys := st.danglingKeys + [key]), 2))
  {
  }

  lemma Regroup(prefix: seq<Event>, begin: Event, body: seq<Event>, end: Event, more: seq<Event>, rest: seq<Event>)
    ensures prefix + ([begin] + body + [end]) + more + rest == (prefix + [begin]) + (body + ([end] + (more + rest)))
  {
  }

  lemma EmitItemsSplit(items: seq<Json>, rest: seq<Event>)
    requires items != [] && IsContainer(items[0])
    ensures EmitItems(items) + rest == [Begin(items[0])] + (Body(items[0]) + ([End(items[0])] + (EmitItems(items[1..]) + rest)))
  {
    var v := items[0];
    Regroup([], Begin(v), Body(v), End(v), EmitItems(items[1..]), rest);
    assert [] + Emit(v) == Emit(v) && [] + [Begin(v)] == [Begin(v)];
  }

  lemma EmitPairsSplit(pairs: seq<Pair>, rest: seq<Event>)
    requires pairs != [] && IsContainer(pairs[0].value)
    ensures var v := pairs[0].value;
            EmitPairs(pairs) + rest ==
            [Key(Str(pairs[0].key)), Begin(v)] + (Body(v) + ([End(v)] + (EmitPairs(pairs[1..]) + rest)))
  {
    var v := pairs[0].value;
    Regroup([Key(Str(pairs[0].key))], Begin(v), Body(v), End(v), EmitPairs(pairs[1..]), rest);
    assert [Key(Str(pairs[0].key))] + [Begin(v)] == [Key(Str(pairs[0].key)), Begin(v)];
  }

  /** A container is filled by the events between its begin and its end. */
  lemma {:induction false} FillFrame(v: Json, base: seq<Json>, keys: seq<string>, sc: bool, rest: seq<Event>)
    requires IsContainer(v) && UniqueKeys(v) && Aligned(State(base + [Empty(v)], keys, sc))
    ensures CheckedRun(State(base + [Empty(v)], keys, sc), Body(v) + rest) == CheckedRun(State(base + [v], keys, sc), rest)
    decreases v, 0
  {
    if v.Array? {
      FillArray(v.items, base, [], keys, sc, rest);
      assert [] + v.items == v.items;
    } else {
      assert [] + v.pairs == v.pairs;
      FillObject(v.pairs, base, [], keys, sc, rest);
    }
  }

  /** The events of items append them to the array on top of the stack. */
  lemma {:induction false} FillArray(items: seq<Json>, base: seq<Json>, here: seq<Json>, keys: seq<string>, sc: bool, rest: seq<Event>)
    requires Aligned(State(base + [Array(here)], keys, sc))
    requires forall i :: 0 <= i < |items| ==> UniqueKeys(items[i])
    ensures CheckedRun(State(base + [Array(here)], keys, sc), EmitItems(items) + rest) ==
            CheckedRun(State(base + [Array(here + items)], keys, sc), rest)
    decreases items, 1
  {
    if items == [] {
      assert here + items == here && [] + rest == rest;
    } else {
      CountBelow(base, Array(here), Array(here + [items[0]]));
      if IsContainer(items[0]) {
        NestInArray(items, base, here, keys, sc, rest);
      } else {
        ScalarInArray(items, base, here, keys, sc, rest);
      }
      FillArray(items[1..], base, here + [items[0]], keys, sc, rest);
      assert here + [items[0]] + items[1..] == here + items;
    }
  }

  lemma ScalarInArray(items: seq<Json>, base: seq<Json>, here: seq<Json>, keys: seq<string>, sc: bool, rest: seq<Event>)
    requires items != [] && !IsContainer(items[0])
    requires Aligned(State(base + [Array(here)], keys, sc))
    ensures CheckedRun(State(base + [Array(here)], keys, sc), EmitItems(items) + rest) ==
            CheckedRun(State(base + [Array(here + [items[0]])], keys, sc), EmitItems(items[1..]) + rest)
  {
    var v, tail := items[0], EmitItems(items[1..]) + rest;
    var st, next := State(base + [Array(here)], keys, sc), State(base + [Array(here + [v])], keys, sc);
    assert EmitItems(items) + rest == [Elem(v)] + tail;
    ElemIs(base, here, keys, sc, v, tail);
    OneStep(st, [Elem(v)] + tail, next, 1, tail);
  }

  lemma {:induction false} NestInArray(items: seq<Json>, base: seq<Json>, here: seq<Json>, keys: seq<string>, sc: bool, rest: seq<Event>)
    requires items != [] && IsContainer(items[0]) && UniqueKeys(items[0])
    requires Aligned(State(base + [Array(here)], keys, sc))
    ensures CheckedRun(State(base + [Array(here)], keys, sc), EmitItems(items) + rest) ==
            CheckedRun(State(base + [Array(here + [items[0]])], keys, sc), EmitItems(items[1..]) + rest)
    decreases items, 0
  {
    var v, tail := items[0], EmitItems(items[1..]) + rest;
    var below := base + [Array(here)];
    CountBelow(base, Array(here), Empty(v));
    CountBelow(base, Array(here), v);
    EmitItemsSplit(items, rest);
    var inside := Body(v) + ([End(v)] + tail);
    BeginIs(State(below, keys, sc), v, inside);
    OneStep(State(below, keys, sc), [Begin(v)] + inside, State(below + [Empty(v)], keys, sc), 1, inside);
    assert below + [Empty(v)] == base + [Array(here), Empty(v)] && below + [v] == base + [Array(here), v];
    FillFrame(v, below, keys, sc, [End(v)] + tail);
    EndInArrayIs(base, here, keys, sc, v);
    EndIs(State(below + [v], keys, sc), v, tail);
    OneStep(State(below + [v], keys, sc), [End(v)] + tail, State(base + [Array(here + [v])], keys, sc), 1, tail);
  }

  /** The events of pairs append them to the object on top of the stack. */
  lemma {:induction false} FillObject(pairs: seq<Pair>, base: seq<Json>, here: seq<Pair>, keys: seq<string>, sc: bool, rest: seq<Event>)
    requires Aligned(State(base + [Object(here)], keys, sc))
    requires forall i :: 0 <= i < |pairs| ==> UniqueKeys(pairs[i].value)
    requires KeysDiffer(here + pairs)
    ensures CheckedRun(State(base + [Object(here)], keys, sc), EmitPairs(pairs) + rest) ==
            CheckedRun(State(base + [Object(here + pairs)], keys, sc), rest)
    decreases pairs, 1
  {
    if pairs == [] {
      assert here + pairs == here && [] + rest == rest;
    } else {
      assert here + [pairs[0]] + pairs[1..] == here + pairs;
      InsertNext(here, pairs);
      CountBelow(base, Object(here), Object(here + [pairs[0]]));
      if IsContainer(pairs[0].value) {
        NestInObject(pairs, base, here, keys, sc, rest);
      } else {
        ScalarInObject(pairs, base, here, keys, sc, rest);
      }
      FillObject(pairs[1..], base, here + [pairs[0]], keys, sc, rest);
    }
  }

  lemma ScalarInObject(pairs: seq<Pair>, base: seq<Json>, here: seq<Pair>, keys: seq<string>, sc: bool, rest: seq<Event>)
    requires pairs != [] && !IsContainer(pairs[0].value)
    requires Aligned(State(base + [Object(here)], keys, sc))
    ensures CheckedRun(State(base + [Object(here)], keys, sc), EmitPairs(pairs) + rest) ==
            CheckedRun(State(base + [Object(Insert(here, pairs[0].key, pairs[0].value))], keys, sc), EmitPairs(pairs[1..]) + rest)
  {
    var key, v, tail := pairs[0].key, pairs[0].value, EmitPairs(pairs[1..]) + rest;
    var st, next := State(base + [Object(here)], keys, sc), State(base + [Object(Insert(here, key, v))], keys, sc);
    assert EmitPairs(pairs) + rest == [Key(Str(key)), Value(v)] + tail;
    KeyValueIs(base, here, keys, key, sc, v, tail);
    OneStep(st, [Key(Str(key)), Value(v)] + tail, next, 2, tail);
  }

  lemma {:induction false} NestInObject(pairs: seq<Pair>, base: seq<Json>, here: seq<Pair>, keys: seq<string>, sc: bool, rest: seq<Event>)
    requires pairs != [] && IsContainer(pairs[0].value) && UniqueKeys(pairs[0].value)
    requires Aligned(State(base + [Object(here)], keys, sc))
    ensures CheckedRun(State(base + [Object(here)], keys, sc), EmitPairs(pairs) + rest) ==
            CheckedRun(State(base + [Object(Insert(here, pairs[0].key, pairs[0].value))], keys, sc), EmitPairs(pairs[1..]) + rest)
    decreases pairs, 0
  {
    var key, v, tail := pairs[0].key, pairs[0].value, EmitPairs(pairs[1..]) + rest;
    var below := base + [Object(here)];
    CountBelow(base, Object(here), Empty(v));
    CountBelow(base, Object(here), v);
    EmitPairsSplit(pairs, rest);
    var inside := Body(v) + ([End(v)] + tail);
    KeyBeginIs(State(below, keys, sc), key, v, inside);
    OneStep(State(below, keys, sc), [Key(Str(key)), Begin(v)] + inside, State(below + [Empty(v)], keys + [key], sc), 2, inside);
    assert below + [Empty(v)] == base + [Object(here), Empty(v)] && below + [v] == base + [Object(here), v];
    FillFrame(v, below, keys + [key], sc, [End(v)] + tail);
    EndInObjectIs(base, here, keys, key, sc, v);
    EndIs(State(below + [v], keys + [key], sc), v, tail);
    OneStep(State(below + [v], keys + [key], sc), [End(v)] + tail,
            State(base + [Object(Insert(here, key, v))], keys, sc), 1, tail);
  }

  lemma ReadsBackContainer(v: Json)
    requires IsContainer(v) && UniqueKeys(v)
    ensures CheckedRun(Start(), Stream(v)) == Read(v)
  {
    var tail := [End(v)] + [Done];
    assert Stream(v) == [Begin(v)] + (Body(v) + tail);
    BeginIs(Start(), v, Body(v) + tail);
    assert [] + [Empty(v)] == [Empty(v)] && [] + [v] == [v];
    OneStep(Start(), [Begin(v)] + (Body(v) + tail), State([Empty(v)], [], false), 1, Body(v) + tail);
    FillFrame(v, [], [], false, tail);
    EndIs(State([v], [], false), v, [Done]);
    OneStep(State([v], [], false), tail, State([v], [], false), 1, [Done]);
  }

  lemma ReadsBackScalar(v: Json)
    requires !IsContainer(v)
    ensures CheckedRun(Start(), Stream(v)) == Read(v)
  {
    var begun, full := State([Array([])], [], true), State([Array([v])], [], true);
    var tail := [End(Array([v]))] + [Done];
    assert Stream(v) == [BeginArray(true)] + ([Elem(v)] + tail);
    assert [] + [Array([])] == [Array([])] && [] + [v] == [v] && [] + [Array([v])] == [Array([v])];
    OneStep(Start(), [BeginArray(true)] + ([Elem(v)] + tail), begun, 1, [Elem(v)] + tail);
    ElemIs([], [], [], true, v, tail);
    OneStep(begun, [Elem(v)] + tail, full, 1, tail);
    EndIs(full, Array([v]), [Done]);
    OneStep(full, tail, full, 1, [Done]);
  }

  /** Reading the event stream of any value gives that value back, and at every step there is
      exactly one dangling key for each open frame inside an object. */
  lemma ReadsBack(v: Json)
    requires UniqueKeys(v)
    ensures CheckedRun(Start(), Stream(v)) == Read(v)
    ensures Run(Start(), Stream(v)) == Read(v)
  {
    if IsContainer(v) {
      ReadsBackContainer(v);
    } else {
      ReadsBackScalar(v);
    }
    CheckedRunIsRun(Start(), Stream(v));
  }
}
