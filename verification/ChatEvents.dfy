/** The chat event machine: OpenAI chunk frames to vendor-neutral events. What a
    frame asks for is read off its JSON first (`Action`s, without state); the
    machine over actions adds the one piece of state, the tools already started. */
module ChatEvents {
  import opened Text
  import opened Json
  import opened Utf8
  import opened SseFrames
  import opened SseCuts
  import opened SseReader

  type Fields = map<string, Json>

  datatype ChatEvent =
    | Ping(text: string)
    | Say(text: string)
    | Think(text: string)
    | ToolStart(index: int, callId: string, name: string)
    | ToolArgs(index: int, text: string)
    | Finish(reason: string, stoppingWord: Option<string>)
    | Usage(prompt: Option<int>, completion: Option<int>, cached: Option<int>)
    | Failed(error: Fields)
    | DoneEvent

  /** What the machine does not compute: `str()` of a JSON value, and the id minted for the n-th started tool. */
  datatype Env = Env(str: Json -> string, mint: nat -> string)

  // ---------------------------------------------------------------- reading one frame

  datatype Action =
    | Emit(event: ChatEvent)
    | Call(index: int, id: Json, name: Json, args: string)

  /** The actions of a stretch of the stream, and whether an exception ended it. */
  datatype Actions = Actions(list: seq<Action>, crashed: bool) {
    function Then(next: Actions): Actions {
      if crashed then this else Actions(list + next.list, next.crashed)
    }
  }

  /** The items `for x in (v or [])` can act on. Strings and objects only yield strings, which
      every loop here skips; a true number or `true` is not iterable. */
  function Items(v: Json): Option<seq<Json>> {
    match v
    case JArr(items) => Some(items)
    case JStr(_) => Some([])
    case JObj(_) => Some([])
    case _ => if Truthy(v) then None else Some([])
  }

  /** A non-empty string, or "". */
  function TextOf(v: Json): string {
    if v.JStr? then v.s else ""
  }

  function IntOrNone(v: Json): Option<int> {
    match v
    case JInt(i) => Some(i)
    case JFloat(r) => Some(if r >= 0.0 then r.Floor else -((-r).Floor))
    case _ => None
  }

  /** `isinstance(index, int)` admits booleans, which equal 0 and 1. */
  function IndexOf(v: Json): int {
    match v
    case JInt(i) => i
    case JBool(b) => if b then 1 else 0
    case _ => 0
  }

  function Or(a: Json, b: Json): Json {
    if Truthy(a) then a else b
  }

  function Reasoning(delta: Fields): string {
    TextOf(Or(Get(delta, "reasoning_content"), Get(delta, "reasoning")))
  }

  function Spoken(delta: Fields): string {
    TextOf(Get(delta, "content"))
  }

  function Thought(text: string): seq<Action> {
    if text == "" then [] else [Emit(Think(text))]
  }

  function Said(text: string): seq<Action> {
    if text == "" then [] else [Emit(Say(text))]
  }

  function CallActions(call: Json): seq<Action> {
    if !call.JObj? then []
    else
      var f := AsDict(Get(call.fields, "function"));
      [Call(IndexOf(Get(call.fields, "index")), Get(call.fields, "id"), Get(f, "name"), TextOf(Get(f, "arguments")))]
  }

  function CallsActions(calls: seq<Json>): seq<Action> {
    if calls == [] then [] else CallActions(calls[0]) + CallsActions(calls[1..])
  }

  function DeltaActions(delta: Fields): Actions {
    var said := Thought(Reasoning(delta)) + Said(Spoken(delta));
    match Items(Get(delta, "tool_calls"))
    case None => Actions(said, true)
    case Some(calls) => Actions(said + CallsActions(calls), false)
  }

  function FinishActions(env: Env, choice: Fields, data: Fields): seq<Action> {
    var reason := Get(choice, "finish_reason");
    var word := TextOf(Or(Get(choice, "stopping_word"), Get(data, "stopping_word")));
    if Truthy(reason) then [Emit(Finish(env.str(reason), if word == "" then None else Some(word)))] else []
  }

  function ChoiceActions(env: Env, choice: Json, data: Fields): Actions {
    if !choice.JObj? then Actions([], false)
    else
      var delta := Get(choice.fields, "delta");
      (if delta.JObj? then DeltaActions(delta.fields) else Actions([], false))
      .Then(Actions(FinishActions(env, choice.fields, data), false))
  }

  function ChoicesActions(env: Env, choices: seq<Json>, data: Fields): Actions
    decreases |choices|
  {
    if choices == [] then Actions([], false)
    else ChoiceActions(env, choices[0], data).Then(ChoicesActions(env, choices[1..], data))
  }

  /** The three counts of a usage object. */
  function Counts(usage: Fields): (Json, Json, Json) {
    (Get(usage, "prompt_tokens"), Get(usage, "completion_tokens"),
     Get(AsDict(Get(usage, "prompt_tokens_details")), "cached_tokens"))
  }

  /** `int()` of NaN or an infinity raises, before the event is made. */
  predicate BadUsage(data: Fields) {
    var usage := Get(data, "usage");
    usage.JObj? && var (p, c, k) := Counts(usage.fields); p.JNonFinite? || c.JNonFinite? || k.JNonFinite?
  }

  function UsageActions(data: Fields): Actions {
    var usage := Get(data, "usage");
    if !usage.JObj? then Actions([], false)
    else if BadUsage(data) then Actions([], true)
    else
      var (p, c, k) := Counts(usage.fields);
      Actions([Emit(Usage(IntOrNone(p), IntOrNone(c), IntOrNone(k)))], false)
  }

  function DataActions(env: Env, data: Fields): Actions {
    var error := Get(data, "error");
    if error.JObj? then Actions([Emit(Failed(error.fields))], false)
    else
      UsageActions(data).Then(
        match Items(Get(data, "choices"))
        case None => Actions([], true)
        case Some(choices) => ChoicesActions(env, choices, data))
  }

  /** The whole stream: ends at the first `done` frame or at an exception. */
  function StreamActions(env: Env, frames: seq<Frame>): Actions
    decreases |frames|
  {
    if frames == [] then Actions([], false)
    else
      match frames[0]
      case Comment(t) => Actions([Emit(Ping(t))], false).Then(StreamActions(env, frames[1..]))
      case Done => Actions([Emit(DoneEvent)], false)
      case Data(d) => DataActions(env, AsDict(d)).Then(StreamActions(env, frames[1..]))
  }

  // ---------------------------------------------------------------- the machine

  datatype Chat = Chat(started: set<int>, events: seq<ChatEvent>)

  const IDLE := Chat({}, [])

  function Act(env: Env, st: Chat, a: Action): Chat {
    match a
    case Emit(e) => st.(events := st.events + [e])
    case Call(i, id, name, args) =>
      var start :=
        if i in st.started then []
        else [ToolStart(i, if Truthy(id) then env.str(id) else env.mint(|st.started|),
                        if Truthy(name) then env.str(name) else "")];
      Chat(st.started + {i}, st.events + start + (if args == "" then [] else [ToolArgs(i, args)]))
  }

  function ActAll(env: Env, st: Chat, list: seq<Action>): Chat
    decreases |list|
  {
    if list == [] then st else ActAll(env, Act(env, st, list[0]), list[1..])
  }

  /** The events of a stream of frames. */
  function Events(env: Env, frames: seq<Frame>): seq<ChatEvent> {
    ActAll(env, IDLE, StreamActions(env, frames).list).events
  }

  lemma {:induction false} ActConcat(env: Env, st: Chat, a: seq<Action>, b: seq<Action>)
    ensures ActAll(env, st, a + b) == ActAll(env, ActAll(env, st, a), b)
    decreases |a|
  {
    if a == [] {
      assert a + b == b;
    } else {
      assert (a + b)[1..] == a[1..] + b;
      ActConcat(env, Act(env, st, a[0]), a[1..], b);
    }
  }

  lemma ActOne(env: Env, st: Chat, a: Action)
    ensures ActAll(env, st, [a]) == Act(env, st, a)
  {
    Singleton(a);
  }

  // ---------------------------------------------------------------- the object that runs it

  /** The generator's state between yields: what it has started and what it has yielded. */
  class Translator {
    var started: set<int>
    var events: seq<ChatEvent>

    ghost function State(): Chat
      reads this
    {
      Chat(started, events)
    }

    constructor ()
      ensures State() == IDLE
    {
      started, events := {}, [];
    }

    method Yield(env: Env, e: ChatEvent)
      modifies this
      ensures State() == ActAll(env, old(State()), [Emit(e)])
    {
      events := events + [e];
      ActOne(env, old(State()), Emit(e));
    }

    method OnCall(env: Env, call: Json)
      modifies this
      ensures State() == ActAll(env, old(State()), CallActions(call))
    {
      if !call.JObj? {
        return;
      }
      var index := IndexOf(Get(call.fields, "index"));
      var f := AsDict(Get(call.fields, "function"));
      var id, name := Get(call.fields, "id"), Get(f, "name");
      ghost var action := CallActions(call)[0];
      ActOne(env, old(State()), action);
      if index !in started {
        var callId := if Truthy(id) then env.str(id) else env.mint(|started|);
        started := started + {index};
        events := events + [ToolStart(index, callId, if Truthy(name) then env.str(name) else "")];
      }
      assert old(started) + {index} == started;
      var arguments := Get(f, "arguments");
      if arguments.JStr? && arguments.s != "" {
        events := events + [ToolArgs(index, arguments.s)];
      }
    }

    method OnDelta(env: Env, delta: Fields) returns (crashed: bool)
      modifies this
      ensures var a := DeltaActions(delta); State() == ActAll(env, old(State()), a.list) && crashed == a.crashed
    {
      ghost var said := Thought(Reasoning(delta)) + Said(Spoken(delta));
      ActConcat(env, State(), Thought(Reasoning(delta)), Said(Spoken(delta)));
      var reasoning := Or(Get(delta, "reasoning_content"), Get(delta, "reasoning"));
      if reasoning.JStr? && reasoning.s != "" {
        Yield(env, Think(reasoning.s));
      }
      var content := Get(delta, "content");
      if content.JStr? && content.s != "" {
        Yield(env, Say(content.s));
      }
      ghost var spoken := State();
      assert spoken == ActAll(env, old(State()), said);
      var items := Items(Get(delta, "tool_calls"));
      if items.None? {
        return true;
      }
      var calls := items.value;
      for i := 0 to |calls|
        invariant ActAll(env, State(), CallsActions(calls[i..])) == ActAll(env, spoken, CallsActions(calls))
      {
        ActConcat(env, State(), CallActions(calls[i]), CallsActions(calls[i + 1..]));
        assert calls[i..][1..] == calls[i + 1..];
        OnCall(env, calls[i]);
      }
      ActConcat(env, old(State()), said, CallsActions(calls));
      return false;
    }

    method OnChoice(env: Env, choice: Json, data: Fields) returns (crashed: bool)
      modifies this
      ensures var a := ChoiceActions(env, choice, data);
              State() == ActAll(env, old(State()), a.list) && crashed == a.crashed
    {
      if !choice.JObj? {
        return false;
      }
      hide ActAll, DeltaActions, TextOf;
      var delta := Get(choice.fields, "delta");
      ghost var a := if delta.JObj? then DeltaActions(delta.fields) else Actions([], false);
      if delta.JObj? {
        crashed := OnDelta(env, delta.fields);
        if crashed {
          return;
        }
      }
      assert State() == ActAll(env, old(State()), a.list) by { NoActions(env, old(State())); }
      ActConcat(env, old(State()), a.list, FinishActions(env, choice.fields, data));
      NoActions(env, State());
      var reason := Get(choice.fields, "finish_reason");
      if Truthy(reason) {
        var word := TextOf(Or(Get(choice.fields, "stopping_word"), Get(data, "stopping_word")));
        Yield(env, Finish(env.str(reason), if word == "" then None else Some(word)));
      }
      return false;
    }

    method OnData(env: Env, data: Fields) returns (crashed: bool)
      modifies this
      ensures var a := DataActions(env, data); State() == ActAll(env, old(State()), a.list) && crashed == a.crashed
    {
      hide ActAll, ChoiceActions, IntOrNone;
      var error := Get(data, "error");
      if error.JObj? {
        Yield(env, Failed(error.fields));
        return false;
      }
      NoActions(env, State());
      var usage := Get(data, "usage");
      if usage.JObj? {
        var (p, c, k) := Counts(usage.fields);
        if p.JNonFinite? || c.JNonFinite? || k.JNonFinite? {
          return true;
        }
        Yield(env, Usage(IntOrNone(p), IntOrNone(c), IntOrNone(k)));
      }
      ghost var counted := State();
      assert counted == ActAll(env, old(State()), UsageActions(data).list);
      var items := Items(Get(data, "choices"));
      if items.None? {
        assert UsageActions(data).list + [] == UsageActions(data).list;
        return true;
      }
      var choices := items.value;
      ghost var whole := ChoicesActions(env, choices, data);
      ActConcat(env, old(State()), UsageActions(data).list, whole.list);
      for i := 0 to |choices|
        invariant ActAll(env, State(), ChoicesActions(env, choices[i..], data).list) == ActAll(env, counted, whole.list)
        invariant ChoicesActions(env, choices[i..], data).crashed == whole.crashed
      {
        ghost var first, rest := ChoiceActions(env, choices[i], data), ChoicesActions(env, choices[i + 1..], data);
        assert choices[i..][1..] == choices[i + 1..];
        ActConcat(env, State(), first.list, rest.list);
        crashed := OnChoice(env, choices[i], data);
        if crashed {
          return;
        }
      }
      NoActions(env, State());
      return false;
    }

    /** The whole translation; `crashed` is an exception out of the generator. */
    method Run(env: Env, frames: seq<Frame>) returns (crashed: bool)
      requires State() == IDLE
      modifies this
      ensures events == Events(env, frames) && crashed == StreamActions(env, frames).crashed
    {
      hide ActAll, DataActions;
      ghost var whole := StreamActions(env, frames);
      for i := 0 to |frames|
        invariant ActAll(env, State(), StreamActions(env, frames[i..]).list) == ActAll(env, IDLE, whole.list)
        invariant StreamActions(env, frames[i..]).crashed == whole.crashed
      {
        assert frames[i..][1..] == frames[i + 1..];
        ghost var rest := StreamActions(env, frames[i + 1..]);
        match frames[i] {
          case Comment(t) =>
            ActConcat(env, State(), [Emit(Ping(t))], rest.list);
            Yield(env, Ping(t));
          case Done =>
            Yield(env, DoneEvent);
            return false;
          case Data(d) =>
            ActConcat(env, State(), DataActions(env, AsDict(d)).list, rest.list);
            crashed := OnData(env, AsDict(d));
            if crashed {
              return;
            }
        }
      }
      NoActions(env, State());
      return false;
    }
  }

  lemma NoActions(env: Env, st: Chat)
    ensures ActAll(env, st, []) == st
  {}

  // ---------------------------------------------------------------- the protocol

  /** One start per tool, before any of its arguments, and a start for every tool started. */
  ghost predicate Orderly(st: Chat) {
    && (forall j, k | 0 <= j < k < |st.events| && st.events[j].ToolStart? && st.events[k].ToolStart? ::
          st.events[j].index != st.events[k].index)
    && (forall k | 0 <= k < |st.events| && st.events[k].ToolArgs? ::
          exists j :: 0 <= j < k && st.events[j].ToolStart? && st.events[j].index == st.events[k].index)
    && (forall j | 0 <= j < |st.events| && st.events[j].ToolStart? :: st.events[j].index in st.started)
    && (forall i | i in st.started ::
          exists j :: 0 <= j < |st.events| && st.events[j].ToolStart? && st.events[j].index == i)
  }

  predicate Plain(e: ChatEvent) { !e.ToolStart? && !e.ToolArgs? }

  lemma OrderlyEmit(st: Chat, e: ChatEvent)
    requires Orderly(st) && Plain(e)
    ensures Orderly(st.(events := st.events + [e]))
  {
    var t := st.(events := st.events + [e]);
    forall i | i in t.started
      ensures exists j :: 0 <= j < |t.events| && t.events[j].ToolStart? && t.events[j].index == i
    {
      var j :| 0 <= j < |st.events| && st.events[j].ToolStart? && st.events[j].index == i;
      assert t.events[j] == st.events[j];
    }
    forall k | 0 <= k < |t.events| && t.events[k].ToolArgs?
      ensures exists j :: 0 <= j < k && t.events[j].ToolStart? && t.events[j].index == t.events[k].index
    {
      assert t.events[k] == st.events[k];
      var j :| 0 <= j < k && st.events[j].ToolStart? && st.events[j].index == st.events[k].index;
      assert t.events[j] == st.events[j];
    }
  }

  lemma OrderlyStart(st: Chat, i: int, id: string, name: string)
    requires Orderly(st) && i !in st.started
    ensures Orderly(Chat(st.started + {i}, st.events + [ToolStart(i, id, name)]))
  {
    var n := |st.events|;
    var t := Chat(st.started + {i}, st.events + [ToolStart(i, id, name)]);
    assert t.events[n].ToolStart? && t.events[n].index == i;
    forall x | x in t.started
      ensures exists j :: 0 <= j < |t.events| && t.events[j].ToolStart? && t.events[j].index == x
    {
      if x != i {
        var j :| 0 <= j < n && st.events[j].ToolStart? && st.events[j].index == x;
        assert t.events[j] == st.events[j];
      }
    }
    forall k | 0 <= k < |t.events| && t.events[k].ToolArgs?
      ensures exists j :: 0 <= j < k && t.events[j].ToolStart? && t.events[j].index == t.events[k].index
    {
      assert t.events[k] == st.events[k];
      var j :| 0 <= j < k && st.events[j].ToolStart? && st.events[j].index == st.events[k].index;
      assert t.events[j] == st.events[j];
    }
  }

  lemma OrderlyArgs(st: Chat, i: int, args: string)
    requires Orderly(st) && i in st.started
    ensures Orderly(st.(events := st.events + [ToolArgs(i, args)]))
  {
    var n := |st.events|;
    var t := st.(events := st.events + [ToolArgs(i, args)]);
    forall x | x in t.started
      ensures exists j :: 0 <= j < n && t.events[j].ToolStart? && t.events[j].index == x
    {
      var j :| 0 <= j < n && st.events[j].ToolStart? && st.events[j].index == x;
      assert t.events[j] == st.events[j];
    }
    forall k | 0 <= k < |t.events| && t.events[k].ToolArgs?
      ensures exists j :: 0 <= j < k && t.events[j].ToolStart? && t.events[j].index == t.events[k].index
    {
      if k < n {
        assert t.events[k] == st.events[k];
        var j :| 0 <= j < k && st.events[j].ToolStart? && st.events[j].index == st.events[k].index;
        assert t.events[j] == st.events[j];
      }
    }
  }

  /** Only calls make tool events. */
  predicate Emissions(list: seq<Action>) {
    forall a | a in list :: a.Emit? ==> Plain(a.event)
  }

  lemma ActOrderly(env: Env, st: Chat, a: Action)
    requires Orderly(st) && (a.Emit? ==> Plain(a.event))
    ensures Orderly(Act(env, st, a))
  {
    hide Orderly;
    match a
    case Emit(e) => OrderlyEmit(st, e);
    case Call(i, id, name, args) =>
      var callId := if Truthy(id) then env.str(id) else env.mint(|st.started|);
      var shown := if Truthy(name) then env.str(name) else "";
      var mid := if i in st.started then st else Chat(st.started + {i}, st.events + [ToolStart(i, callId, shown)]);
      if i !in st.started { OrderlyStart(st, i, callId, shown); }
      if args != "" { OrderlyArgs(mid, i, args); }
      assert i in st.started ==> st.started + {i} == st.started;
      assert i in st.started ==> st.events + [] == st.events;
      assert mid.events + [] == mid.events;
  }

  lemma {:induction false} ActAllOrderly(env: Env, st: Chat, list: seq<Action>)
    requires Orderly(st) && Emissions(list)
    ensures Orderly(ActAll(env, st, list))
    decreases |list|
  {
    if list != [] {
      ActOrderly(env, st, list[0]);
      ActAllOrderly(env, Act(env, st, list[0]), list[1..]);
    }
  }

  lemma {:induction false} CallsEmissions(calls: seq<Json>)
    ensures forall a | a in CallsActions(calls) :: a.Call?
  {
    if calls != [] { CallsEmissions(calls[1..]); }
  }

  lemma DeltaEmissions(delta: Fields)
    ensures Emissions(DeltaActions(delta).list)
    ensures Emit(DoneEvent) !in DeltaActions(delta).list
  {
    var items := Items(Get(delta, "tool_calls"));
    if items.Some? { CallsEmissions(items.value); }
  }

  lemma {:induction false} ChoicesEmissions(env: Env, choices: seq<Json>, data: Fields)
    ensures Emissions(ChoicesActions(env, choices, data).list)
    ensures Emit(DoneEvent) !in ChoicesActions(env, choices, data).list
    decreases |choices|
  {
    if choices != [] {
      ChoicesEmissions(env, choices[1..], data);
      if choices[0].JObj? {
        var delta := Get(choices[0].fields, "delta");
        if delta.JObj? { DeltaEmissions(delta.fields); }
        hide DeltaActions, ChoicesActions;
        assert Emissions(ChoiceActions(env, choices[0], data).list);
      }
    }
  }

  lemma DataEmissions(env: Env, data: Fields)
    ensures Emissions(DataActions(env, data).list) && Emit(DoneEvent) !in DataActions(env, data).list
  {
    var items := Items(Get(data, "choices"));
    if items.Some? { ChoicesEmissions(env, items.value, data); }
  }

  /** A `done` action can only be the last one. */
  lemma {:induction false} StreamEmissions(env: Env, frames: seq<Frame>)
    ensures Emissions(StreamActions(env, frames).list)
    ensures var l := StreamActions(env, frames).list;
            forall k | 0 <= k < |l| - 1 :: l[k] != Emit(DoneEvent)
    decreases |frames|
  {
    if frames != [] {
      StreamEmissions(env, frames[1..]);
      if frames[0].Data? { DataEmissions(env, AsDict(frames[0].data)); }
      hide DataActions;
    }
  }

  lemma {:induction false} NoDone(env: Env, st: Chat, list: seq<Action>)
    requires Emit(DoneEvent) !in list && DoneEvent !in st.events
    ensures DoneEvent !in ActAll(env, st, list).events
    decreases |list|
  {
    if list != [] { NoDone(env, Act(env, st, list[0]), list[1..]); }
  }

  /** The protocol of every stream, crashed or not: one start per tool, before its arguments. */
  lemma ToolProtocol(env: Env, frames: seq<Frame>)
    ensures Orderly(ActAll(env, IDLE, StreamActions(env, frames).list))
  {
    assert Orderly(IDLE);
    hide *;
    StreamEmissions(env, frames);
    ActAllOrderly(env, IDLE, StreamActions(env, frames).list);
  }

  /** No stream has an event after its `done`, so there is at most one. */
  lemma NothingAfterDone(env: Env, frames: seq<Frame>)
    ensures var e := Events(env, frames); forall k | 0 <= k < |e| - 1 :: !e[k].DoneEvent?
  {
    assert Events(env, frames) == ActAll(env, IDLE, StreamActions(env, frames).list).events;
    hide *;
    StreamEmissions(env, frames);
    DoneLast(env, StreamActions(env, frames).list);
  }

  lemma DoneLast(env: Env, l: seq<Action>)
    requires forall k | 0 <= k < |l| - 1 :: l[k] != Emit(DoneEvent)
    ensures var e := ActAll(env, IDLE, l).events; forall k | 0 <= k < |e| - 1 :: !e[k].DoneEvent?
  {
    if l != [] {
      var a, z := l[..|l| - 1], l[|l| - 1];
      assert Emit(DoneEvent) !in a;
      assert DoneEvent !in IDLE.events;
      hide *;
      NoDone(env, IDLE, a);
      ActConcat(env, IDLE, a, [z]);
      assert a + [z] == l;
      LastAction(env, ActAll(env, IDLE, a), z);
    }
  }

  lemma LastAction(env: Env, st: Chat, a: Action)
    requires DoneEvent !in st.events
    ensures var e := ActAll(env, st, [a]).events; forall k | 0 <= k < |e| - 1 :: !e[k].DoneEvent?
  {
    ActOne(env, st, a);
    assert a.Call? ==> DoneEvent !in Act(env, st, a).events;
  }

  // ---------------------------------------------------------------- nothing lost, nothing added

  /** The frames that count: data frames without an error, before the first `done`. */
  function Live(frames: seq<Frame>): seq<Fields> {
    if frames == [] || frames[0].Done? then [] else LiveOf(frames[0]) + Live(frames[1..])
  }

  function LiveOf(frame: Frame): (r: seq<Fields>)
    ensures |r| <= 1
  {
    if frame.Data? && !Get(AsDict(frame.data), "error").JObj? then [AsDict(frame.data)] else []
  }

  function ItemsOf(v: Json): seq<Json> {
    match Items(v) case Some(items) => items case None => []
  }

  /** The deltas of a frame's choices. */
  function Deltas(choices: seq<Json>): seq<Fields> {
    if choices == [] then [] else DeltaOf(choices[0]) + Deltas(choices[1..])
  }

  function DeltaOf(choice: Json): (r: seq<Fields>)
    ensures |r| <= 1
  {
    if choice.JObj? && Get(choice.fields, "delta").JObj? then [Get(choice.fields, "delta").fields] else []
  }

  /** A delta whose `tool_calls` is a true number or `true`. */
  predicate BadDelta(delta: Fields) { Items(Get(delta, "tool_calls")).None? }

  /** A frame in which a count is not finite, or whose `choices` or a delta's `tool_calls` cannot be iterated. */
  predicate BadFrame(data: Fields) {
    BadUsage(data) || Items(Get(data, "choices")).None?
    || exists d | d in Deltas(ItemsOf(Get(data, "choices"))) :: BadDelta(d)
  }

  /** The deltas up to the one that raises, whose text comes before its calls. */
  function UpToBad(deltas: seq<Fields>): seq<Fields> {
    if deltas == [] then [] else [deltas[0]] + if BadDelta(deltas[0]) then [] else UpToBad(deltas[1..])
  }

  /** The deltas of one frame that are reached. */
  function Reached(data: Fields): seq<Fields> {
    if BadUsage(data) then [] else UpToBad(Deltas(ItemsOf(Get(data, "choices"))))
  }

  /** The deltas reached before the stream ends or raises. */
  function AllDeltas(live: seq<Fields>): seq<Fields> {
    if live == [] then [] else Reached(live[0]) + if BadFrame(live[0]) then [] else AllDeltas(live[1..])
  }

  /** The arguments a delta's calls carry for tool `i`. */
  function CallArgs(calls: seq<Json>, i: int): string {
    if calls == [] then ""
    else
      (if calls[0].JObj? && IndexOf(Get(calls[0].fields, "index")) == i
       then TextOf(Get(AsDict(Get(calls[0].fields, "function")), "arguments")) else "")
      + CallArgs(calls[1..], i)
  }

  function CallIndices(calls: seq<Json>): set<int> {
    if calls == [] then {}
    else (if calls[0].JObj? then {IndexOf(Get(calls[0].fields, "index"))} else {}) + CallIndices(calls[1..])
  }

  /** What the deltas say in all: text, reasoning, the tools named, and the arguments of tool `i`. */
  datatype Total = Total(text: string, reasoning: string, tools: set<int>, args: string) {
    function Plus(t: Total): Total {
      Total(text + t.text, reasoning + t.reasoning, tools + t.tools, args + t.args)
    }
  }

  const NOTHING := Total("", "", {}, "")

  function DeltaTotal(delta: Fields, i: int): Total {
    var calls := ItemsOf(Get(delta, "tool_calls"));
    Total(Spoken(delta), Reasoning(delta), CallIndices(calls), CallArgs(calls, i))
  }

  function DeltasTotal(deltas: seq<Fields>, i: int): Total {
    if deltas == [] then NOTHING else DeltaTotal(deltas[0], i).Plus(DeltasTotal(deltas[1..], i))
  }

  function EventTotal(e: ChatEvent, i: int): Total {
    match e
    case Say(t) => NOTHING.(text := t)
    case Think(t) => NOTHING.(reasoning := t)
    case ToolStart(n, _, _) => NOTHING.(tools := {n})
    case ToolArgs(n, t) => if n == i then NOTHING.(args := t) else NOTHING
    case _ => NOTHING
  }

  /** What the events say in all. */
  function EventsTotal(events: seq<ChatEvent>, i: int): Total {
    if events == [] then NOTHING else EventTotal(events[0], i).Plus(EventsTotal(events[1..], i))
  }

  function ActionTotal(a: Action, i: int): Total {
    match a
    case Emit(e) => EventTotal(e, i)
    case Call(n, _, _, args) => Total("", "", {n}, if n == i then args else "")
  }

  function ActionsTotal(list: seq<Action>, i: int): Total {
    if list == [] then NOTHING else ActionTotal(list[0], i).Plus(ActionsTotal(list[1..], i))
  }

  lemma PlusAssociative(a: Total, b: Total, c: Total)
    ensures a.Plus(b).Plus(c) == a.Plus(b.Plus(c)) && a.Plus(NOTHING) == a && NOTHING.Plus(a) == a
  {
    Associative(a.text, b.text, c.text);
    Associative(a.reasoning, b.reasoning, c.reasoning);
    Associative(a.args, b.args, c.args);
  }

  lemma {:induction false} EventsTotalConcat(a: seq<ChatEvent>, b: seq<ChatEvent>, i: int)
    ensures EventsTotal(a + b, i) == EventsTotal(a, i).Plus(EventsTotal(b, i))
  {
    if a == [] {
      assert a + b == b;
      PlusAssociative(EventsTotal(b, i), NOTHING, NOTHING);
    } else {
      assert (a + b)[1..] == a[1..] + b;
      EventsTotalConcat(a[1..], b, i);
      PlusAssociative(EventTotal(a[0], i), EventsTotal(a[1..], i), EventsTotal(b, i));
    }
  }

  lemma {:induction false} ActionsTotalConcat(a: seq<Action>, b: seq<Action>, i: int)
    ensures ActionsTotal(a + b, i) == ActionsTotal(a, i).Plus(ActionsTotal(b, i))
  {
    if a == [] {
      assert a + b == b;
      PlusAssociative(ActionsTotal(b, i), NOTHING, NOTHING);
    } else {
      assert (a + b)[1..] == a[1..] + b;
      ActionsTotalConcat(a[1..], b, i);
      PlusAssociative(ActionTotal(a[0], i), ActionsTotal(a[1..], i), ActionsTotal(b, i));
    }
  }

  lemma {:induction false} DeltasTotalConcat(a: seq<Fields>, b: seq<Fields>, i: int)
    ensures DeltasTotal(a + b, i) == DeltasTotal(a, i).Plus(DeltasTotal(b, i))
  {
    if a == [] {
      assert a + b == b;
      PlusAssociative(DeltasTotal(b, i), NOTHING, NOTHING);
    } else {
      assert (a + b)[1..] == a[1..] + b;
      DeltasTotalConcat(a[1..], b, i);
      PlusAssociative(DeltaTotal(a[0], i), DeltasTotal(a[1..], i), DeltasTotal(b, i));
    }
  }

  /** The machine says exactly what its actions ask for; `tools` counts the starts. */
  lemma ActTotal(env: Env, st: Chat, a: Action, i: int)
    requires EventsTotal(st.events, i).tools == st.started
    requires a.Emit? ==> Plain(a.event)
    ensures EventsTotal(Act(env, st, a).events, i) == EventsTotal(st.events, i).Plus(ActionTotal(a, i))
    ensures EventsTotal(Act(env, st, a).events, i).tools == Act(env, st, a).started
  {
    match a
    case Emit(e) =>
      SingleTotal(e, i);
      EventsTotalConcat(st.events, [e], i);
    case Call(n, id, name, args) =>
      var callId := if Truthy(id) then env.str(id) else env.mint(|st.started|);
      var shown := if Truthy(name) then env.str(name) else "";
      CallTotal(st, n, callId, shown, args, i);
  }

  lemma CallTotal(st: Chat, n: int, callId: string, name: string, args: string, i: int)
    requires EventsTotal(st.events, i).tools == st.started
    ensures var start := if n in st.started then [] else [ToolStart(n, callId, name)];
            var rest := if args == "" then [] else [ToolArgs(n, args)];
            EventsTotal(st.events + start + rest, i)
            == EventsTotal(st.events, i).Plus(Total("", "", {n}, if n == i then args else ""))
  {
    var start := if n in st.started then [] else [ToolStart(n, callId, name)];
    var rest := if args == "" then [] else [ToolArgs(n, args)];
    OptionalTotals(n in st.started, n, callId, name, args, i);
    hide *;
    EventsTotalConcat(st.events, start, i);
    EventsTotalConcat(st.events + start, rest, i);
    PlusAssociative(EventsTotal(st.events, i), EventsTotal(start, i), EventsTotal(rest, i));
    TotalsAdd(EventsTotal(st.events, i), n, n in st.started, if n == i then args else "");
  }

  lemma TotalsAdd(t: Total, n: int, known: bool, args: string)
    requires known <==> n in t.tools
    ensures t.Plus(if known then NOTHING else Total("", "", {n}, "")).Plus(Total("", "", {}, args))
            == t.Plus(Total("", "", {n}, args))
  {
    assert known ==> t.tools + {n} == t.tools;
  }

  lemma OptionalTotals(known: bool, n: int, callId: string, name: string, args: string, i: int)
    ensures EventsTotal(if known then [] else [ToolStart(n, callId, name)], i)
            == if known then NOTHING else Total("", "", {n}, "")
    ensures EventsTotal(if args == "" then [] else [ToolArgs(n, args)], i)
            == Total("", "", {}, if n == i then args else "")
  {
    SingleTotal(ToolStart(n, callId, name), i);
    SingleTotal(ToolArgs(n, args), i);
  }

  lemma SingleTotal(e: ChatEvent, i: int)
    ensures EventsTotal([e], i) == EventTotal(e, i)
  {
    Singleton(e);
    PlusAssociative(EventTotal(e, i), NOTHING, NOTHING);
  }

  lemma {:induction false} ActAllTotal(env: Env, st: Chat, list: seq<Action>, i: int)
    requires EventsTotal(st.events, i).tools == st.started && Emissions(list)
    ensures EventsTotal(ActAll(env, st, list).events, i) == EventsTotal(st.events, i).Plus(ActionsTotal(list, i))
    decreases |list|
  {
    if list == [] {
      PlusAssociative(EventsTotal(st.events, i), NOTHING, NOTHING);
    } else {
      ActTotal(env, st, list[0], i);
      ActAllTotal(env, Act(env, st, list[0]), list[1..], i);
      PlusAssociative(EventsTotal(st.events, i), ActionTotal(list[0], i), ActionsTotal(list[1..], i));
    }
  }

  lemma {:induction false} CallsTotal(calls: seq<Json>, i: int)
    ensures ActionsTotal(CallsActions(calls), i) == Total("", "", CallIndices(calls), CallArgs(calls, i))
  {
    if calls != [] {
      CallsTotal(calls[1..], i);
      ActionsTotalConcat(CallActions(calls[0]), CallsActions(calls[1..]), i);
      if calls[0].JObj? { Singleton(CallActions(calls[0])[0]); }
    }
  }

  lemma DeltaActionsTotal(delta: Fields, i: int)
    ensures ActionsTotal(DeltaActions(delta).list, i) == DeltaTotal(delta, i)
    ensures DeltaActions(delta).crashed <==> BadDelta(delta)
  {
    var think, say := Thought(Reasoning(delta)), Said(Spoken(delta));
    var calls := ItemsOf(Get(delta, "tool_calls"));
    assert DeltaActions(delta).list == think + say + CallsActions(calls);
    SaidTotals(Reasoning(delta), Spoken(delta), i);
    assert DeltaTotal(delta, i) == Total(Spoken(delta), Reasoning(delta), CallIndices(calls), CallArgs(calls, i));
    assert DeltaActions(delta).crashed <==> BadDelta(delta);
    hide *;
    CallsTotal(calls, i);
    ActionsTotalConcat(think, say, i);
    ActionsTotalConcat(think + say, CallsActions(calls), i);
    PartsAdd(Spoken(delta), Reasoning(delta), CallIndices(calls), CallArgs(calls, i));
  }

  lemma PartsAdd(text: string, reasoning: string, tools: set<int>, args: string)
    ensures NOTHING.(reasoning := reasoning).Plus(NOTHING.(text := text)).Plus(Total("", "", tools, args))
            == Total(text, reasoning, tools, args)
  {}

  lemma SaidTotals(think: string, say: string, i: int)
    ensures ActionsTotal(Thought(think), i) == NOTHING.(reasoning := think)
    ensures ActionsTotal(Said(say), i) == NOTHING.(text := say)
  {
    Singleton(Emit(Think(think)));
    Singleton(Emit(Say(say)));
  }

  lemma ChoiceTotal(env: Env, choice: Json, data: Fields, i: int)
    ensures ActionsTotal(ChoiceActions(env, choice, data).list, i) == DeltasTotal(DeltaOf(choice), i)
    ensures ChoiceActions(env, choice, data).crashed <==> exists d | d in DeltaOf(choice) :: BadDelta(d)
  {
    if choice.JObj? {
      var delta := Get(choice.fields, "delta");
      var finish := FinishActions(env, choice.fields, data);
      assert ActionsTotal(finish, i) == NOTHING by { if finish != [] { Singleton(finish[0]); } }
      if delta.JObj? {
        Singleton(delta.fields);
        DeltaActionsTotal(delta.fields, i);
        ActionsTotalConcat(DeltaActions(delta.fields).list, finish, i);
        PlusAssociative(DeltaTotal(delta.fields, i), NOTHING, NOTHING);
      } else {
        assert [] + finish == finish;
      }
    }
  }

  lemma {:induction false} ChoicesTotal(env: Env, choices: seq<Json>, data: Fields, i: int)
    ensures ActionsTotal(ChoicesActions(env, choices, data).list, i) == DeltasTotal(UpToBad(Deltas(choices)), i)
    ensures ChoicesActions(env, choices, data).crashed <==> exists d | d in Deltas(choices) :: BadDelta(d)
    decreases |choices|
  {
    if choices != [] {
      ChoicesUnfold(env, choices, data);
      UpToBadConcat(DeltaOf(choices[0]), Deltas(choices[1..]));
      var first, rest := ChoiceActions(env, choices[0], data), ChoicesActions(env, choices[1..], data);
      hide *;
      ChoiceTotal(env, choices[0], data, i);
      ChoicesTotal(env, choices[1..], data, i);
      ActionsTotalConcat(first.list, rest.list, i);
      DeltasTotalConcat(DeltaOf(choices[0]), UpToBad(Deltas(choices[1..])), i);
      assert forall d :: d in Deltas(choices) <==> d in DeltaOf(choices[0]) || d in Deltas(choices[1..]);
    }
  }

  lemma ChoicesUnfold(env: Env, choices: seq<Json>, data: Fields)
    requires choices != []
    ensures var first, rest := ChoiceActions(env, choices[0], data), ChoicesActions(env, choices[1..], data);
            ChoicesActions(env, choices, data)
            == if first.crashed then first else Actions(first.list + rest.list, rest.crashed)
    ensures Deltas(choices) == DeltaOf(choices[0]) + Deltas(choices[1..])
  {
    hide ChoiceActions, DeltaOf;
  }

  lemma UpToBadConcat(here: seq<Fields>, rest: seq<Fields>)
    requires |here| <= 1
    ensures UpToBad(here + rest) == here + if exists d | d in here :: BadDelta(d) then [] else UpToBad(rest)
  {
    hide BadDelta;
    if here == [] {
      assert here + rest == rest && [] + UpToBad(rest) == UpToBad(rest);
    } else {
      assert (here + rest)[1..] == rest && here == [here[0]];
      assert (exists d | d in here :: BadDelta(d)) <==> BadDelta(here[0]);
    }
  }

  lemma DataTotal(env: Env, data: Fields, i: int)
    ensures ActionsTotal(DataActions(env, data).list, i) ==
            if Get(data, "error").JObj? then NOTHING else DeltasTotal(Reached(data), i)
    ensures DataActions(env, data).crashed <==> !Get(data, "error").JObj? && BadFrame(data)
  {
    if Get(data, "error").JObj? {
      Singleton(DataActions(env, data).list[0]);
    } else {
      var usage := UsageActions(data);
      assert ActionsTotal(usage.list, i) == NOTHING by { if usage.list != [] { Singleton(usage.list[0]); } }
      if !usage.crashed {
        var choices := ItemsOf(Get(data, "choices"));
        ActionsTotalConcat(usage.list, ChoicesActions(env, choices, data).list, i);
        ChoicesTotal(env, choices, data, i);
        PlusAssociative(ActionsTotal(ChoicesActions(env, choices, data).list, i), NOTHING, NOTHING);
        assert usage.list + [] == usage.list;
      }
    }
  }

  lemma {:induction false} StreamTotal(env: Env, frames: seq<Frame>, i: int)
    ensures ActionsTotal(StreamActions(env, frames).list, i) == DeltasTotal(AllDeltas(Live(frames)), i)
    ensures StreamActions(env, frames).crashed <==> exists data | data in Live(frames) :: BadFrame(data)
    decreases |frames|
  {
    if frames != [] && frames[0].Done? {
      Singleton(Emit(DoneEvent));
    } else if frames != [] {
      StreamUnfold(env, frames);
      DeltasFirst(LiveOf(frames[0]), Live(frames[1..]));
      var first, rest := FrameActions(env, frames[0]), StreamActions(env, frames[1..]);
      hide *;
      StreamTotal(env, frames[1..], i);
      FrameTotal(env, frames[0], i);
      ActionsTotalConcat(first.list, rest.list, i);
      DeltasTotalConcat(AllDeltas(LiveOf(frames[0])), AllDeltas(Live(frames[1..])), i);
      assert forall d :: d in Live(frames) <==> d in LiveOf(frames[0]) || d in Live(frames[1..]);
    }
  }

  /** One frame that is not `done`. */
  function FrameActions(env: Env, frame: Frame): Actions
    requires !frame.Done?
  {
    if frame.Comment? then Actions([Emit(Ping(frame.text))], false) else DataActions(env, AsDict(frame.data))
  }

  lemma StreamUnfold(env: Env, frames: seq<Frame>)
    requires frames != [] && !frames[0].Done?
    ensures var first, rest := FrameActions(env, frames[0]), StreamActions(env, frames[1..]);
            StreamActions(env, frames) == if first.crashed then first else Actions(first.list + rest.list, rest.crashed)
    ensures Live(frames) == LiveOf(frames[0]) + Live(frames[1..])
  {
    hide DataActions, LiveOf;
  }

  lemma DeltasFirst(here: seq<Fields>, rest: seq<Fields>)
    requires |here| <= 1
    ensures AllDeltas(here + rest)
            == AllDeltas(here) + if exists d | d in here :: BadFrame(d) then [] else AllDeltas(rest)
  {
    hide Reached, BadFrame;
    if here == [] {
      assert here + rest == rest && [] + AllDeltas(rest) == AllDeltas(rest);
    } else {
      assert (here + rest)[1..] == rest && here[1..] == [];
      assert Reached(here[0]) + [] == Reached(here[0]);
      assert (exists d | d in here :: BadFrame(d)) <==> BadFrame(here[0]);
    }
  }

  lemma FrameTotal(env: Env, frame: Frame, i: int)
    requires !frame.Done?
    ensures ActionsTotal(FrameActions(env, frame).list, i) == DeltasTotal(AllDeltas(LiveOf(frame)), i)
    ensures FrameActions(env, frame).crashed <==> exists d | d in LiveOf(frame) :: BadFrame(d)
  {
    hide DataActions, Reached, BadFrame;
    if frame.Comment? {
      Singleton(Emit(Ping(frame.text)));
    } else {
      var data := AsDict(frame.data);
      Singleton(data);
      DataTotal(env, data, i);
      assert Reached(data) + [] == Reached(data);
    }
  }

  /** For every stream, raising or not: the joined text, reasoning and arguments of each tool, and the set
      of tools started, are exactly those of the deltas reached in the non-error frames before the first
      `done` and up to the point where it raises. */
  lemma NothingLost(env: Env, frames: seq<Frame>, i: int)
    ensures EventsTotal(Events(env, frames), i) == DeltasTotal(AllDeltas(Live(frames)), i)
  {
    StreamEmissions(env, frames);
    ActAllTotal(env, IDLE, StreamActions(env, frames).list, i);
    StreamTotal(env, frames, i);
    PlusAssociative(ActionsTotal(StreamActions(env, frames).list, i), NOTHING, NOTHING);
  }

  /** The deltas of the frames, wherever the stream raises. */
  function EveryDelta(live: seq<Fields>): seq<Fields> {
    if live == [] then [] else Deltas(ItemsOf(Get(live[0], "choices"))) + EveryDelta(live[1..])
  }

  /** In a stream that does not raise every delta is reached. */
  lemma {:induction false} AllReached(live: seq<Fields>)
    requires forall data | data in live :: !BadFrame(data)
    ensures AllDeltas(live) == EveryDelta(live)
  {
    if live != [] {
      AllReached(live[1..]);
      assert !BadFrame(live[0]);
      NoneBad(Deltas(ItemsOf(Get(live[0], "choices"))));
    }
  }

  lemma {:induction false} NoneBad(deltas: seq<Fields>)
    requires forall d | d in deltas :: !BadDelta(d)
    ensures UpToBad(deltas) == deltas
  {
    if deltas != [] { NoneBad(deltas[1..]); }
  }

  /** The translation raises exactly when a frame that counts holds a count that is not finite, or is shaped so
      that a loop cannot iterate. */
  lemma RaisesExactly(env: Env, frames: seq<Frame>)
    ensures StreamActions(env, frames).crashed <==> exists data | data in Live(frames) :: BadFrame(data)
  {
    StreamTotal(env, frames, 0);
  }

  // ---------------------------------------------------------------- from bytes to events

  /** The events of a response body that arrives in these chunks. */
  function StreamEvents(env: Env, loads: string -> Option<Json>, chunks: seq<seq<Byte>>): seq<ChatEvent> {
    Events(env, StreamFrames(loads, ReadStream(chunks)))
  }

  /** A body whose text is settled gives the same events however the network cuts it: for one without CR CR LF
      those of one pass over the whole text. */
  lemma EventsUnderEveryCut(env: Env, loads: string -> Option<Json>, chunks: seq<seq<Byte>>)
    requires Settled(DecodeAll(Flatten(chunks)))
    ensures var t := DecodeAll(Flatten(chunks));
            StreamEvents(env, loads, chunks) == Events(env, StreamFrames(loads, TwoPass(t)))
            && (NoCrCrLf(t) ==> StreamEvents(env, loads, chunks) == Events(env, StreamFrames(loads, OnePass(t))))
  {
    hide Events, StreamFrames, TwoPass, OnePass, ReadStream;
    SettledReading(chunks);
    if NoCrCrLf(DecodeAll(Flatten(chunks))) { TwiceIsOnce(DecodeAll(Flatten(chunks))); }
  }
}
