/** The chat stream read off the JSON keys of its frames, as an independent account of what
    every event carries and in which order, raising streams included. */
module ChatReading {
  import opened Text
  import opened Json
  import opened SseReader
  import opened ChatEvents

  /** One event as it stands, or one tool call. */
  datatype Mark = Plainly(event: ChatEvent) | CallOf(call: Fields)

  /** What is read before the stream ends or an exception is raised. */
  datatype Reading = Reading(marks: seq<Mark>, raised: bool)

  // ---------------------------------------------------------------- reading the keys

  function StrAt(f: Fields, key: string): string {
    if key in f && f[key].JStr? then f[key].s else ""
  }

  /** Present and true. */
  predicate Has(f: Fields, key: string) {
    key in f
    && !(f[key] == JNull || f[key] == JBool(false) || f[key] == JInt(0) || f[key] == JFloat(0.0) || f[key] == JStr("")
         || f[key] == JArr([]) || f[key] == JObj(map[]))
  }

  /** The object under a key, or an empty one. */
  function ObjAt(f: Fields, key: string): Fields {
    if key in f && f[key].JObj? then f[key].fields else map[]
  }

  predicate HasObj(f: Fields, key: string) {
    key in f && f[key].JObj?
  }

  /** A number's integer part; any other value counts as none. */
  function WholeAt(f: Fields, key: string): Option<int> {
    if key !in f then None
    else
      match f[key]
      case JInt(i) => Some(i)
      case JFloat(r) => Some(if r < 0.0 then -((-r).Floor) else r.Floor)
      case _ => None
  }

  predicate EndlessAt(f: Fields, key: string) {
    key in f && f[key].JNonFinite?
  }

  /** What `for x in (f.get(key) or [])` visits that is an object, if it can be iterated. */
  function ObjectsAt(f: Fields, key: string): Option<seq<Json>> {
    if !Has(f, key) then Some([])
    else
      match f[key]
      case JArr(items) => Some(items)
      case JStr(_) => Some([])
      case JObj(_) => Some([])
      case _ => None
  }

  function ToolIndex(call: Fields): int {
    if "index" !in call then 0
    else if call["index"].JInt? then call["index"].i
    else if call["index"] == JBool(true) then 1 else 0
  }

  // ---------------------------------------------------------------- frames

  function ReadCalls(calls: seq<Json>): seq<Mark> {
    if calls == [] then []
    else (if calls[0].JObj? then [CallOf(calls[0].fields)] else []) + ReadCalls(calls[1..])
  }

  function ReadDelta(delta: Fields): Reading {
    var thought :=
      StrAt(delta, if Has(delta, "reasoning_content") then "reasoning_content" else "reasoning");
    var said := StrAt(delta, "content");
    var heard :=
      (if thought == "" then [] else [Plainly(Think(thought))]) + (if said == "" then [] else [Plainly(Say(said))]);
    match ObjectsAt(delta, "tool_calls")
    case None => Reading(heard, true)
    case Some(calls) => Reading(heard + ReadCalls(calls), false)
  }

  function ReadFinish(env: Env, choice: Fields, data: Fields): seq<Mark> {
    if !Has(choice, "finish_reason") then []
    else
      var word := if Has(choice, "stopping_word") then StrAt(choice, "stopping_word") else StrAt(data, "stopping_word");
      [Plainly(Finish(env.str(choice["finish_reason"]), if word == "" then None else Some(word)))]
  }

  function ReadChoices(env: Env, choices: seq<Json>, data: Fields): Reading
    decreases |choices|
  {
    if choices == [] then Reading([], false)
    else if !choices[0].JObj? then ReadChoices(env, choices[1..], data)
    else
      var choice := choices[0].fields;
      var heard := if HasObj(choice, "delta") then ReadDelta(choice["delta"].fields) else Reading([], false);
      if heard.raised then heard
      else
        var rest := ReadChoices(env, choices[1..], data);
        Reading(heard.marks + ReadFinish(env, choice, data) + rest.marks, rest.raised)
  }

  function ReadUsage(data: Fields): Reading {
    if !HasObj(data, "usage") then Reading([], false)
    else
      var u := data["usage"].fields;
      var d := ObjAt(u, "prompt_tokens_details");
      if EndlessAt(u, "prompt_tokens") || EndlessAt(u, "completion_tokens") || EndlessAt(d, "cached_tokens") then
        Reading([], true)
      else
        var usage := Usage(WholeAt(u, "prompt_tokens"), WholeAt(u, "completion_tokens"), WholeAt(d, "cached_tokens"));
        Reading([Plainly(usage)], false)
  }

  function ReadData(env: Env, data: Fields): Reading {
    if HasObj(data, "error") then Reading([Plainly(Failed(data["error"].fields))], false)
    else
      var usage := ReadUsage(data);
      if usage.raised then usage
      else
        match ObjectsAt(data, "choices")
        case None => Reading(usage.marks, true)
        case Some(choices) =>
          var rest := ReadChoices(env, choices, data);
          Reading(usage.marks + rest.marks, rest.raised)
  }

  function ReadFrames(env: Env, frames: seq<Frame>): Reading
    decreases |frames|
  {
    if frames == [] then Reading([], false)
    else
      match frames[0]
      case Done => Reading([Plainly(DoneEvent)], false)
      case Comment(text) =>
        var rest := ReadFrames(env, frames[1..]);
        Reading([Plainly(Ping(text))] + rest.marks, rest.raised)
      case Data(d) =>
        var here := ReadData(env, if d.JObj? then d.fields else map[]);
        if here.raised then here
        else
          var rest := ReadFrames(env, frames[1..]);
          Reading(here.marks + rest.marks, rest.raised)
  }

  // ---------------------------------------------------------------- events

  function CallsOf(marks: seq<Mark>): seq<Fields> {
    if marks == [] then []
    else CallsOf(marks[..|marks| - 1]) + if marks[|marks| - 1].CallOf? then [marks[|marks| - 1].call] else []
  }

  function Indices(calls: seq<Fields>): set<int> {
    set c | c in calls :: ToolIndex(c)
  }

  /** The start of a tool, with the id and name of the call given; the `n`-th start without an id gets the
      `n`-th minted one. */
  function StartOf(env: Env, call: Fields, n: nat): ChatEvent {
    var f := ObjAt(call, "function");
    ToolStart(ToolIndex(call), if Has(call, "id") then env.str(call["id"]) else env.mint(n),
              if Has(f, "name") then env.str(f["name"]) else "")
  }

  /** The events of these marks: the first call of an index starts its tool, and every call's arguments follow. */
  function Expand(env: Env, marks: seq<Mark>): seq<ChatEvent> {
    if marks == [] then []
    else
      var front, last := marks[..|marks| - 1], marks[|marks| - 1];
      Expand(env, front) +
      match last
      case Plainly(e) => [e]
      case CallOf(call) =>
        var seen := Indices(CallsOf(front));
        var args := StrAt(ObjAt(call, "function"), "arguments");
        (if ToolIndex(call) in seen then [] else [StartOf(env, call, |seen|)])
        + if args == "" then [] else [ToolArgs(ToolIndex(call), args)]
  }

  // ---------------------------------------------------------------- the machine does just that

  function ActionOf(m: Mark): Action {
    match m
    case Plainly(e) => Emit(e)
    case CallOf(call) =>
      var f := ObjAt(call, "function");
      Call(ToolIndex(call), if "id" in call then call["id"] else JNull, if "name" in f then f["name"] else JNull,
           StrAt(f, "arguments"))
  }

  function ActionsOf(marks: seq<Mark>): seq<Action> {
    if marks == [] then [] else [ActionOf(marks[0])] + ActionsOf(marks[1..])
  }

  lemma {:induction false} ActionsOfConcat(a: seq<Mark>, b: seq<Mark>)
    ensures ActionsOf(a + b) == ActionsOf(a) + ActionsOf(b)
  {
    if a == [] {
      assert a + b == b;
    } else {
      assert (a + b)[1..] == a[1..] + b;
      ActionsOfConcat(a[1..], b);
      Associative([ActionOf(a[0])], ActionsOf(a[1..]), ActionsOf(b));
    }
  }

  lemma OneMark(m: Mark)
    ensures ActionsOf([m]) == [ActionOf(m)] && ActionsOf([]) == []
  {
    Singleton(m);
  }

  lemma GetIs(f: Fields, key: string)
    ensures Get(f, key) == (if key in f then f[key] else JNull) && (Truthy(Get(f, key)) <==> Has(f, key))
    ensures TextOf(Get(f, key)) == StrAt(f, key) && Items(Get(f, key)) == ObjectsAt(f, key)
    ensures AsDict(Get(f, key)) == ObjAt(f, key) && (Get(f, key).JObj? <==> HasObj(f, key))
    ensures Get(f, key).JNonFinite? <==> EndlessAt(f, key)
    ensures !EndlessAt(f, key) ==> IntOrNone(Get(f, key)) == WholeAt(f, key)
  {
    FalsyExactly(Get(f, key));
    if key in f && f[key].JFloat? && f[key].r == 0.0 { assert (-0.0).Floor == 0; }
  }

  lemma CallIs(call: Fields)
    ensures CallActions(JObj(call)) == ActionsOf([CallOf(call)])
  {
    GetIs(call, "index");
    GetIs(call, "id");
    GetIs(call, "function");
    GetIs(ObjAt(call, "function"), "name");
    GetIs(ObjAt(call, "function"), "arguments");
    OneMark(CallOf(call));
    hide Get;
  }

  lemma {:induction false} CallsAre(calls: seq<Json>)
    ensures CallsActions(calls) == ActionsOf(ReadCalls(calls))
  {
    hide CallActions, ActionOf;
    if calls != [] {
      CallsAre(calls[1..]);
      if calls[0].JObj? {
        CallIs(calls[0].fields);
        ActionsOfConcat([CallOf(calls[0].fields)], ReadCalls(calls[1..]));
      } else {
        NoCall(calls[0]);
        assert [] + ReadCalls(calls[1..]) == ReadCalls(calls[1..]);
        assert [] + CallsActions(calls[1..]) == CallsActions(calls[1..]);
      }
    }
  }

  lemma NoCall(call: Json)
    requires !call.JObj?
    ensures CallActions(call) == []
  {}

  /** The same actions, and the same raise. */
  predicate Matches(a: Actions, r: Reading) {
    a == Actions(ActionsOf(r.marks), r.raised)
  }

  lemma ThoughtIs(delta: Fields)
    ensures Reasoning(delta) ==
            if Has(delta, "reasoning_content") then StrAt(delta, "reasoning_content") else StrAt(delta, "reasoning")
    ensures Spoken(delta) == StrAt(delta, "content")
  {
    GetIs(delta, "reasoning_content");
    GetIs(delta, "reasoning");
    GetIs(delta, "content");
    hide Get;
  }

  lemma DeltaIs(delta: Fields)
    ensures Matches(DeltaActions(delta), ReadDelta(delta))
  {
    ThoughtIs(delta);
    GetIs(delta, "tool_calls");
    var think, say := Reasoning(delta), Spoken(delta);
    var heard :=
      (if think == "" then [] else [Plainly(Think(think))]) + (if say == "" then [] else [Plainly(Say(say))]);
    HeardIs(think, say);
    hide Reasoning, Spoken, Get, ActionsOf, Thought, Said;
    if ObjectsAt(delta, "tool_calls").Some? {
      var calls := ObjectsAt(delta, "tool_calls").value;
      CallsAre(calls);
      ActionsOfConcat(heard, ReadCalls(calls));
    }
  }

  lemma HeardIs(think: string, say: string)
    ensures var heard :=
              (if think == "" then [] else [Plainly(Think(think))]) + (if say == "" then [] else [Plainly(Say(say))]);
            ActionsOf(heard) == Thought(think) + Said(say)
  {
    var a: seq<Mark>, b: seq<Mark> :=
      if think == "" then [] else [Plainly(Think(think))], if say == "" then [] else [Plainly(Say(say))];
    OneMark(Plainly(Think(think)));
    OneMark(Plainly(Say(say)));
    ActionsOfConcat(a, b);
  }

  lemma FinishIs(env: Env, choice: Fields, data: Fields)
    ensures FinishActions(env, choice, data) == ActionsOf(ReadFinish(env, choice, data))
  {
    GetIs(choice, "finish_reason");
    GetIs(choice, "stopping_word");
    GetIs(data, "stopping_word");
    if Has(choice, "finish_reason") {
      OneMark(ReadFinish(env, choice, data)[0]);
    }
    hide Get, Truthy, TextOf, StrAt;
  }

  lemma ChoiceIs(env: Env, choice: Json, data: Fields)
    requires choice.JObj?
    ensures var heard :=
              if HasObj(choice.fields, "delta") then ReadDelta(choice.fields["delta"].fields) else Reading([], false);
            Matches(ChoiceActions(env, choice, data),
                    if heard.raised then heard
                    else Reading(heard.marks + ReadFinish(env, choice.fields, data), false))
  {
    var c := choice.fields;
    GetIs(c, "delta");
    FinishIs(env, c, data);
    var heard := if HasObj(c, "delta") then ReadDelta(c["delta"].fields) else Reading([], false);
    if HasObj(c, "delta") { DeltaIs(c["delta"].fields); }
    hide Get, ReadDelta, DeltaActions, FinishActions, ReadFinish, ActionOf;
    ActionsOfConcat(heard.marks, ReadFinish(env, c, data));
    assert ActionsOf([]) == [] && [] + FinishActions(env, c, data) == FinishActions(env, c, data);
  }

  lemma {:induction false} ChoicesAre(env: Env, choices: seq<Json>, data: Fields)
    ensures Matches(ChoicesActions(env, choices, data), ReadChoices(env, choices, data))
    decreases |choices|
  {
    if choices != [] {
      ChoicesAre(env, choices[1..], data);
      var rest := ReadChoices(env, choices[1..], data);
      if choices[0].JObj? {
        var c := choices[0].fields;
        ChoiceIs(env, choices[0], data);
        var heard := if HasObj(c, "delta") then ReadDelta(c["delta"].fields) else Reading([], false);
        hide ReadDelta, ChoiceActions, ReadFinish, ActionsOf;
        if !heard.raised { ActionsOfConcat(heard.marks + ReadFinish(env, c, data), rest.marks); }
      } else {
        assert ChoiceActions(env, choices[0], data) == Actions([], false);
        assert [] + ActionsOf(rest.marks) == ActionsOf(rest.marks);
      }
    }
  }

  lemma UsageIs(data: Fields)
    ensures Matches(UsageActions(data), ReadUsage(data))
  {
    GetIs(data, "usage");
    OneMark(Plainly(DoneEvent));
    if HasObj(data, "usage") {
      var u := data["usage"].fields;
      var d := ObjAt(u, "prompt_tokens_details");
      GetIs(u, "prompt_tokens");
      GetIs(u, "completion_tokens");
      GetIs(u, "prompt_tokens_details");
      GetIs(d, "cached_tokens");
      hide Get, IntOrNone, WholeAt, EndlessAt;
      assert Counts(u) == (Get(u, "prompt_tokens"), Get(u, "completion_tokens"), Get(d, "cached_tokens"));
      if !ReadUsage(data).raised { OneMark(ReadUsage(data).marks[0]); }
    }
  }

  lemma DataIs(env: Env, data: Fields)
    ensures Matches(DataActions(env, data), ReadData(env, data))
  {
    GetIs(data, "error");
    GetIs(data, "choices");
    UsageIs(data);
    var usage := ReadUsage(data);
    if HasObj(data, "error") {
      OneMark(ReadData(env, data).marks[0]);
    } else if !usage.raised && ObjectsAt(data, "choices").Some? {
      var choices := ObjectsAt(data, "choices").value;
      ChoicesAre(env, choices, data);
      hide ActionsOf, ReadUsage, UsageActions, ReadChoices, ChoicesActions, Get;
      ActionsOfConcat(usage.marks, ReadChoices(env, choices, data).marks);
    } else if !usage.raised {
      assert UsageActions(data).list + [] == UsageActions(data).list;
    }
    hide Get, ReadUsage, UsageActions;
  }

  lemma {:induction false} FramesAre(env: Env, frames: seq<Frame>)
    ensures Matches(StreamActions(env, frames), ReadFrames(env, frames))
    decreases |frames|
  {
    if frames != [] {
      FramesAre(env, frames[1..]);
      var rest := ReadFrames(env, frames[1..]);
      match frames[0]
      case Done => OneMark(Plainly(DoneEvent));
      case Comment(text) =>
        OneMark(Plainly(Ping(text)));
        ActionsOfConcat([Plainly(Ping(text))], rest.marks);
      case Data(d) =>
        var data := if d.JObj? then d.fields else map[];
        DataIs(env, data);
        hide ActionsOf, DataActions, ReadData;
        if !ReadData(env, data).raised { ActionsOfConcat(ReadData(env, data).marks, rest.marks); }
    } else {
      OneMark(Plainly(DoneEvent));
    }
  }

  lemma IndicesSnoc(calls: seq<Fields>, call: Fields)
    ensures Indices(calls + [call]) == Indices(calls) + {ToolIndex(call)}
  {}

  /** The machine expands the marks. */
  lemma {:induction false} ActsOut(env: Env, marks: seq<Mark>)
    ensures ActAll(env, IDLE, ActionsOf(marks)) == Chat(Indices(CallsOf(marks)), Expand(env, marks))
    decreases |marks|
  {
    if marks == [] {
      OneMark(Plainly(DoneEvent));
    } else {
      var front, last := marks[..|marks| - 1], marks[|marks| - 1];
      assert marks == front + [last];
      ActsOut(env, front);
      ActionsOfConcat(front, [last]);
      OneMark(last);
      ActConcat(env, IDLE, ActionsOf(front), [ActionOf(last)]);
      ActOne(env, ActAll(env, IDLE, ActionsOf(front)), ActionOf(last));
      hide ActAll, ActionsOf, Indices, CallsOf;
      LastActs(env, front, last);
    }
  }

  lemma LastActs(env: Env, front: seq<Mark>, last: Mark)
    ensures Act(env, Chat(Indices(CallsOf(front)), Expand(env, front)), ActionOf(last))
            == Chat(Indices(CallsOf(front + [last])), Expand(env, front + [last]))
  {
    assert (front + [last])[..|front|] == front;
    match last
    case Plainly(e) => assert CallsOf(front) + [] == CallsOf(front);
    case CallOf(call) =>
      IndicesSnoc(CallsOf(front), call);
      var f := ObjAt(call, "function");
      TruthIs(call, "id");
      TruthIs(f, "name");
      hide Indices, CallsOf, Has, Truthy;
      assert ToolIndex(call) in Indices(CallsOf(front)) ==>
               Indices(CallsOf(front)) + {ToolIndex(call)} == Indices(CallsOf(front));
  }

  lemma TruthIs(f: Fields, key: string)
    ensures Truthy(if key in f then f[key] else JNull) <==> Has(f, key)
  {
    GetIs(f, key);
  }

  /** Every event of every stream of frames, field by field and in order, is the one read off the frames' keys, and
      the translation raises exactly when the reading does. */
  lemma EventsAreRead(env: Env, frames: seq<Frame>)
    ensures Events(env, frames) == Expand(env, ReadFrames(env, frames).marks)
    ensures StreamActions(env, frames).crashed <==> ReadFrames(env, frames).raised
  {
    FramesAre(env, frames);
    ActsOut(env, ReadFrames(env, frames).marks);
  }
}
