/**
 * The declarative records `create_application` consumes and the library
 * `Application` object it fills, modelled as the log of calls made on it.
 * Shared by the dictionary-based (tests/test5/test5.py) and the scanning
 * (tests/test2/test2.py) versions of `create_application`.
 */
module AppModel {
  import opened Wrappers

  /** `Application.TYPE_SOURCE`, `TYPE_MODULE`, `TYPE_SINK`. */
  datatype ModuleType = TypeSource | TypeModule | TypeSink

  /** One element of `modules`: the single-key dict `{name: {"Type": kind, "RAM"?: ram}}`. */
  datatype ModuleRec = ModuleRec(name: string, kind: ModuleType, ram: Option<int>)

  /** One element of `messages`; `std` is None where the record says `None` or has no such key. */
  datatype MessageRec = MessageRec(name: string, src: string, dst: string, instructions: nat,
                                   bytes: int, pop: bool, std: Option<real>)

  /** A library `Message` object. */
  datatype Message = Message(name: string, src: string, dst: string, instructions: nat,
                             bytes: int, std: Option<real>)

  /** One element of `transmissions[service]`: `{"in", "out", "threshold"}`. */
  datatype RuleRec = RuleRec(inName: string, outName: string, threshold: real)

  /** The calls `create_application` makes on the library `Application`. */
  datatype AppCall =
    | SetModulesCall(modules: seq<ModuleRec>)
    | AddSourceMessagesCall(message: Message)
    | AddServiceModuleCall(service: string, messageIn: Message, messageOut: Message, threshold: real)

  /** A module that both versions give service rules: a processing module with an entry in `transmissions`. */
  predicate Emits(m: ModuleRec, transmissions: map<string, seq<RuleRec>>)
  {
    m.kind == TypeModule && m.name in transmissions
  }

  /**
   * The library application object, observed through the calls made on it.
   * Every rule is registered with `fractional_selectivity`, so the
   * distribution argument is not recorded.
   */
  class Application {
    const name: string
    var calls: seq<AppCall>

    constructor (name: string)
      ensures this.name == name && calls == []
    {
      this.name := name;
      calls := [];
    }

    method SetModules(modules: seq<ModuleRec>)
      modifies this
      ensures calls == old(calls) + [SetModulesCall(modules)]
    {
      calls := calls + [SetModulesCall(modules)];
    }

    method AddSourceMessages(message: Message)
      modifies this
      ensures calls == old(calls) + [AddSourceMessagesCall(message)]
    {
      calls := calls + [AddSourceMessagesCall(message)];
    }

    method AddServiceModule(service: string, messageIn: Message, messageOut: Message, threshold: real)
      modifies this
      ensures calls == old(calls) + [AddServiceModuleCall(service, messageIn, messageOut, threshold)]
    {
      calls := calls + [AddServiceModuleCall(service, messageIn, messageOut, threshold)];
    }
  }

  /** The positions of the records whose `pop` flag is set, in increasing order. */
  function PopIndices(recs: seq<MessageRec>): (ix: seq<nat>)
    ensures forall k :: 0 <= k < |ix| ==> ix[k] < |recs| && recs[ix[k]].pop
    ensures forall k, l :: 0 <= k < l < |ix| ==> ix[k] < ix[l]
    ensures forall i :: 0 <= i < |recs| && recs[i].pop ==> i in ix
  {
    if |recs| == 0 then []
    else
      var prev := PopIndices(recs[..|recs| - 1]);
      if recs[|recs| - 1].pop then prev + [|recs| - 1] else prev
  }

  /**
   * The source registrations of the loop `for idx, message in
   * enumerate(messages): if message["pop"]: add_source_messages(messages_list[idx])`.
   */
  function SourceCalls(recs: seq<MessageRec>, msgs: seq<Message>): seq<AppCall>
    requires |recs| == |msgs|
  {
    if |recs| == 0 then []
    else
      var n := |recs| - 1;
      SourceCalls(recs[..n], msgs[..n]) + (if recs[n].pop then [AddSourceMessagesCall(msgs[n])] else [])
  }

  /**
   * A message is registered as a source exactly when its record's `pop`
   * flag is set, once per such record and in input order.
   */
  lemma {:induction false} SourceCallsArePopMessages(recs: seq<MessageRec>, msgs: seq<Message>)
    requires |recs| == |msgs|
    ensures var ix := PopIndices(recs);
            var r := SourceCalls(recs, msgs);
            |r| == |ix| && forall k :: 0 <= k < |r| ==> r[k] == AddSourceMessagesCall(msgs[ix[k]])
  {
    if |recs| > 0 {
      var n := |recs| - 1;
      SourceCallsArePopMessages(recs[..n], msgs[..n]);
    }
  }

  /** The loop registering the messages whose `pop` flag is set. */
  method RegisterSources(a: Application, messages: seq<MessageRec>, messagesList: seq<Message>)
    requires |messagesList| == |messages|
    modifies a
    ensures a.calls == old(a.calls) + SourceCalls(messages, messagesList)
  {
    var i := 0;
    while i < |messages|
      invariant 0 <= i <= |messages|
      invariant a.calls == old(a.calls) + SourceCalls(messages[..i], messagesList[..i])
    {
      assert messages[..i + 1][..i] == messages[..i];
      assert messagesList[..i + 1][..i] == messagesList[..i];
      if messages[i].pop {
        a.AddSourceMessages(messagesList[i]);
      }
      i := i + 1;
    }
    assert messages[..i] == messages && messagesList[..i] == messagesList;
  }

  /** How many messages bear the name. */
  function CountName(msgs: seq<Message>, name: string): nat
  {
    if |msgs| == 0 then 0
    else CountName(msgs[..|msgs| - 1], name) + (if msgs[|msgs| - 1].name == name then 1 else 0)
  }

  /** No two messages share a name. */
  predicate UniqueNames(msgs: seq<Message>)
  {
    forall i, j :: 0 <= i < j < |msgs| ==> msgs[i].name != msgs[j].name
  }

  /** A name absent from the list is counted zero times, a unique present name once. */
  lemma {:induction false} CountNameUnique(msgs: seq<Message>, name: string)
    requires UniqueNames(msgs)
    ensures CountName(msgs, name) == if exists i :: 0 <= i < |msgs| && msgs[i].name == name then 1 else 0
  {
    if |msgs| > 0 {
      var n := |msgs| - 1;
      var prefix := msgs[..n];
      CountNameUnique(prefix, name);
      assert forall i :: 0 <= i < n ==> prefix[i] == msgs[i];
      if msgs[n].name == name {
        assert !exists i :: 0 <= i < n && prefix[i].name == name;
      }
    }
  }

  /** A module of that name is declared. */
  predicate DeclaredModule(modules: seq<ModuleRec>, name: string)
  {
    exists j :: 0 <= j < |modules| && modules[j].name == name
  }

  predicate UniqueModuleNames(modules: seq<ModuleRec>)
  {
    forall i, j :: 0 <= i < j < |modules| ==> modules[i].name != modules[j].name
  }

  predicate UniqueRecordNames(recs: seq<MessageRec>)
  {
    forall i, j :: 0 <= i < j < |recs| ==> recs[i].name != recs[j].name
  }

  /** Every message's origin and destination is a declared module. */
  predicate MessagesReferenceModules(modules: seq<ModuleRec>, recs: seq<MessageRec>)
  {
    forall i :: 0 <= i < |recs| ==> DeclaredModule(modules, recs[i].src) && DeclaredModule(modules, recs[i].dst)
  }

  /** The rule consumes a message addressed to the service and produces one originating from it. */
  predicate RuleMatches(recs: seq<MessageRec>, service: string, rule: RuleRec)
  {
    (exists i :: 0 <= i < |recs| && recs[i].name == rule.inName && recs[i].dst == service) &&
    (exists i :: 0 <= i < |recs| && recs[i].name == rule.outName && recs[i].src == service)
  }

  /** Every rule of every service matches that service. */
  predicate RulesMatchService(recs: seq<MessageRec>, transmissions: map<string, seq<RuleRec>>)
  {
    forall service, k :: service in transmissions && 0 <= k < |transmissions[service]| ==>
      RuleMatches(recs, service, transmissions[service][k])
  }

  /** Every threshold is a fraction in [0, 1]. */
  predicate ThresholdsInRange(transmissions: map<string, seq<RuleRec>>)
  {
    forall service, k :: service in transmissions && 0 <= k < |transmissions[service]| ==>
      0.0 <= transmissions[service][k].threshold <= 1.0
  }

  /** The application-level well-formedness every shipped scenario satisfies. */
  predicate WellFormedApp(modules: seq<ModuleRec>, recs: seq<MessageRec>, transmissions: map<string, seq<RuleRec>>)
  {
    UniqueModuleNames(modules) && UniqueRecordNames(recs) &&
    MessagesReferenceModules(modules, recs) && RulesMatchService(recs, transmissions) &&
    ThresholdsInRange(transmissions)
  }

  /** Position pairs in strictly increasing (first, second) order. */
  predicate LexSorted(at: seq<(nat, nat)>)
  {
    forall p, q :: 0 <= p < q < |at| ==> at[p].0 < at[q].0 || (at[p].0 == at[q].0 && at[p].1 < at[q].1)
  }

  /** Sorted pairs whose first components are below n, followed by sorted pairs whose first component is n, stay sorted. */
  lemma LexSortedAppend(prev: seq<(nat, nat)>, extra: seq<(nat, nat)>, n: nat)
    requires LexSorted(prev) && forall p :: 0 <= p < |prev| ==> prev[p].0 < n
    requires LexSorted(extra) && forall p :: 0 <= p < |extra| ==> extra[p].0 == n
    ensures LexSorted(prev + extra)
  {
    var at := prev + extra;
    forall p, q | 0 <= p < q < |at|
      ensures at[p].0 < at[q].0 || (at[p].0 == at[q].0 && at[p].1 < at[q].1)
    {
      if q < |prev| {
        assert at[p] == prev[p] && at[q] == prev[q];
      } else if p < |prev| {
        assert at[p] == prev[p] && at[q] == extra[q - |prev|];
      } else {
        assert at[p] == extra[p - |prev|] && at[q] == extra[q - |prev|];
      }
    }
  }

  /**
   * A service's rules match it when, for every rule k, the positions
   * `ins[k]` and `outs[k]` name its input and output messages with that
   * service as destination and as origin.
   */
  lemma RulesMatchByPositions(recs: seq<MessageRec>, service: string, rules: seq<RuleRec>,
                              ins: seq<nat>, outs: seq<nat>)
    requires |ins| == |rules| == |outs|
    requires forall k :: 0 <= k < |rules| ==>
               ins[k] < |recs| && recs[ins[k]].name == rules[k].inName && recs[ins[k]].dst == service
    requires forall k :: 0 <= k < |rules| ==>
               outs[k] < |recs| && recs[outs[k]].name == rules[k].outName && recs[outs[k]].src == service
    ensures forall k :: 0 <= k < |rules| ==> RuleMatches(recs, service, rules[k])
  {
    forall k | 0 <= k < |rules|
      ensures RuleMatches(recs, service, rules[k])
    {
      var i, o := ins[k], outs[k];
      assert recs[i].name == rules[k].inName && recs[i].dst == service;
      assert recs[o].name == rules[k].outName && recs[o].src == service;
    }
  }
}
