/**
 * `create_application` of tests/test2/test2.py: rules are resolved by
 * scanning `messages_list` twice for every rule, so a rule naming an absent
 * message is silently skipped and duplicate names produce several calls.
 */
module ScanAssembly {
  import opened Wrappers
  import opened AppModel
  import DictAssembly

  /** `Message(name, src, dst, instructions, bytes)`: no noise parameter. */
  function ToMessage(rec: MessageRec): Message
  {
    Message(rec.name, rec.src, rec.dst, rec.instructions, rec.bytes, None)
  }

  /** `messages_list`: one Message per record, in input order. */
  function BuildMessages(recs: seq<MessageRec>): (msgs: seq<Message>)
    ensures |msgs| == |recs|
    ensures forall i :: 0 <= i < |recs| ==> msgs[i] == ToMessage(recs[i])
  {
    if |recs| == 0 then []
    else BuildMessages(recs[..|recs| - 1]) + [ToMessage(recs[|recs| - 1])]
  }

  /** The innermost loop: `message_in` fixed, `message_out` ranging over `outs`. */
  function MatchOut(service: string, rule: RuleRec, messageIn: Message, outs: seq<Message>): seq<AppCall>
  {
    if |outs| == 0 then []
    else
      var n := |outs| - 1;
      MatchOut(service, rule, messageIn, outs[..n]) +
      (if messageIn.name == rule.inName && outs[n].name == rule.outName
       then [AddServiceModuleCall(service, messageIn, outs[n], rule.threshold)] else [])
  }

  /** The two inner loops for one rule: `message_in` over `ins`, `message_out` over `msgs`. */
  function MatchPairs(service: string, rule: RuleRec, ins: seq<Message>, msgs: seq<Message>): seq<AppCall>
  {
    if |ins| == 0 then []
    else MatchPairs(service, rule, ins[..|ins| - 1], msgs) + MatchOut(service, rule, ins[|ins| - 1], msgs)
  }

  /** The loop over one service's rules. */
  function RuleCalls(service: string, rules: seq<RuleRec>, msgs: seq<Message>): seq<AppCall>
  {
    if |rules| == 0 then []
    else RuleCalls(service, rules[..|rules| - 1], msgs) + MatchPairs(service, rules[|rules| - 1], msgs, msgs)
  }

  /** The loop over `modules`: only processing modules with an entry in `transmissions` contribute. */
  function ServiceCalls(modules: seq<ModuleRec>, transmissions: map<string, seq<RuleRec>>,
                        msgs: seq<Message>): seq<AppCall>
  {
    if |modules| == 0 then []
    else
      var n := |modules| - 1;
      ServiceCalls(modules[..n], transmissions, msgs) +
      (if Emits(modules[n], transmissions) then RuleCalls(modules[n].name, transmissions[modules[n].name], msgs) else [])
  }

  /** The whole call log of `create_application`; this version never raises. */
  function CreateApplicationSpec(modules: seq<ModuleRec>, recs: seq<MessageRec>,
                                 transmissions: map<string, seq<RuleRec>>): seq<AppCall>
  {
    var msgs := BuildMessages(recs);
    [SetModulesCall(modules)] + SourceCalls(recs, msgs) + ServiceCalls(modules, transmissions, msgs)
  }

  /** One rule yields one call per message bearing its input name, per message bearing its output name. */
  lemma {:induction false} MatchOutCount(service: string, rule: RuleRec, messageIn: Message, outs: seq<Message>)
    ensures |MatchOut(service, rule, messageIn, outs)| ==
            if messageIn.name == rule.inName then CountName(outs, rule.outName) else 0
  {
    if |outs| > 0 {
      MatchOutCount(service, rule, messageIn, outs[..|outs| - 1]);
    }
  }

  /**
   * A rule produces `CountName(in) * CountName(out)` calls: none when either
   * name is absent (silently skipped), one when both occur once.
   */
  lemma {:induction false} MatchPairsCount(service: string, rule: RuleRec, ins: seq<Message>, msgs: seq<Message>)
    ensures |MatchPairs(service, rule, ins, msgs)| == CountName(ins, rule.inName) * CountName(msgs, rule.outName)
  {
    if |ins| > 0 {
      var n := |ins| - 1;
      MatchPairsCount(service, rule, ins[..n], msgs);
      MatchOutCount(service, rule, ins[n], msgs);
      assert |MatchPairs(service, rule, ins, msgs)| ==
             |MatchPairs(service, rule, ins[..n], msgs)| + |MatchOut(service, rule, ins[n], msgs)|;
      var a, c := CountName(ins[..n], rule.inName), CountName(msgs, rule.outName);
      assert CountName(ins, rule.inName) == a + (if ins[n].name == rule.inName then 1 else 0);
      MulSucc(a, c);
    }
  }

  lemma MulSucc(a: nat, c: nat)
    ensures (a + 1) * c == a * c + c
  {
  }

  /** The calls of the innermost loop, traced to the positions of their output messages. */
  lemma {:induction false} MatchOutTrace(service: string, rule: RuleRec, messageIn: Message, outs: seq<Message>)
    returns (at: seq<nat>)
    ensures var calls := MatchOut(service, rule, messageIn, outs);
            |at| == |calls| &&
            (forall p :: 0 <= p < |at| ==>
               (at[p] < |outs| && messageIn.name == rule.inName && outs[at[p]].name == rule.outName &&
                calls[p] == AddServiceModuleCall(service, messageIn, outs[at[p]], rule.threshold))) &&
            (forall p, q :: 0 <= p < q < |at| ==> at[p] < at[q]) &&
            (forall b :: 0 <= b < |outs| && messageIn.name == rule.inName && outs[b].name == rule.outName ==> b in at)
  {
    if |outs| == 0 {
      at := [];
    } else {
      var n := |outs| - 1;
      at := MatchOutTrace(service, rule, messageIn, outs[..n]);
      assert forall b :: 0 <= b < n ==> outs[..n][b] == outs[b];
      if messageIn.name == rule.inName && outs[n].name == rule.outName {
        at := at + [n];
      }
    }
  }

  /** The pairs made for input position n: n with each output position in turn. */
  function WithInput(n: nat, outs: seq<nat>): (r: seq<(nat, nat)>)
    ensures |r| == |outs| && forall p :: 0 <= p < |outs| ==> r[p] == (n, outs[p])
  {
    seq(|outs|, p requires 0 <= p < |outs| => (n, outs[p]))
  }

  /**
   * Every call made for one rule, traced to the pair of positions
   * (message_in, message_out) it was made for: the pairs are exactly those
   * whose names match the rule, in increasing (in, out) order, and the
   * threshold is passed unchanged.
   */
  lemma {:induction false} MatchPairsTrace(service: string, rule: RuleRec, ins: seq<Message>, msgs: seq<Message>)
    returns (at: seq<(nat, nat)>)
    ensures var calls := MatchPairs(service, rule, ins, msgs);
            |at| == |calls| &&
            (forall p :: 0 <= p < |at| ==> PairCall(service, rule, ins, msgs, at[p], calls[p])) &&
            LexSorted(at) &&
            (forall a, b :: (0 <= a < |ins| && 0 <= b < |msgs| &&
               ins[a].name == rule.inName && msgs[b].name == rule.outName) ==> (a, b) in at)
  {
    if |ins| == 0 {
      at := [];
    } else {
      var n := |ins| - 1;
      var prevAt := MatchPairsTrace(service, rule, ins[..n], msgs);
      var outs := MatchOutTrace(service, rule, ins[n], msgs);
      at := prevAt + WithInput(n, outs);
      PairCallsExtend(service, rule, ins, msgs, prevAt, outs);
      LexSortedAppend(prevAt, WithInput(n, outs), n);
      PairsCompleteExtend(rule, ins, msgs, prevAt, outs);
    }
  }

  /** The calls for the first n inputs and for input n, traced to their pairs, trace the calls for all n + 1. */
  lemma PairCallsExtend(service: string, rule: RuleRec, ins: seq<Message>, msgs: seq<Message>,
                        prevAt: seq<(nat, nat)>, outs: seq<nat>)
    requires |ins| > 0
    requires var prevCalls := MatchPairs(service, rule, ins[..|ins| - 1], msgs);
             |prevAt| == |prevCalls| &&
             forall p :: 0 <= p < |prevAt| ==> PairCall(service, rule, ins[..|ins| - 1], msgs, prevAt[p], prevCalls[p])
    requires var m, last := ins[|ins| - 1], MatchOut(service, rule, ins[|ins| - 1], msgs);
             |outs| == |last| &&
             forall p :: 0 <= p < |outs| ==>
               outs[p] < |msgs| && m.name == rule.inName && msgs[outs[p]].name == rule.outName &&
               last[p] == AddServiceModuleCall(service, m, msgs[outs[p]], rule.threshold)
    ensures var at, calls := prevAt + WithInput(|ins| - 1, outs), MatchPairs(service, rule, ins, msgs);
            |at| == |calls| && forall p :: 0 <= p < |at| ==> PairCall(service, rule, ins, msgs, at[p], calls[p])
    ensures forall p :: 0 <= p < |prevAt| ==> prevAt[p].0 < |ins| - 1
  {
    var n := |ins| - 1;
    var prefix := ins[..n];
    var prevCalls := MatchPairs(service, rule, prefix, msgs);
    var last := MatchOut(service, rule, ins[n], msgs);
    var at := prevAt + WithInput(n, outs);
    var calls := prevCalls + last;
    assert calls == MatchPairs(service, rule, ins, msgs);
    forall p | 0 <= p < |at|
      ensures PairCall(service, rule, ins, msgs, at[p], calls[p])
    {
      if p < |prevAt| {
        assert PairCall(service, rule, prefix, msgs, prevAt[p], prevCalls[p]);
        assert at[p] == prevAt[p] && calls[p] == prevCalls[p];
        assert prefix[prevAt[p].0] == ins[prevAt[p].0];
      } else {
        var o := p - |prevAt|;
        assert at[p] == (n, outs[o]) && calls[p] == last[o];
      }
    }
    forall p | 0 <= p < |prevAt|
      ensures prevAt[p].0 < n
    {
      assert PairCall(service, rule, prefix, msgs, prevAt[p], prevCalls[p]);
    }
  }

  /** Every matching pair is traced once the pairs of input n are appended to those of the inputs before it. */
  lemma PairsCompleteExtend(rule: RuleRec, ins: seq<Message>, msgs: seq<Message>, prevAt: seq<(nat, nat)>, outs: seq<nat>)
    requires |ins| > 0
    requires forall a, b :: (0 <= a < |ins| - 1 && 0 <= b < |msgs| &&
               ins[..|ins| - 1][a].name == rule.inName && msgs[b].name == rule.outName) ==> (a, b) in prevAt
    requires forall b :: 0 <= b < |msgs| && ins[|ins| - 1].name == rule.inName && msgs[b].name == rule.outName ==> b in outs
    ensures forall a, b :: (0 <= a < |ins| && 0 <= b < |msgs| &&
              ins[a].name == rule.inName && msgs[b].name == rule.outName) ==> (a, b) in prevAt + WithInput(|ins| - 1, outs)
  {
    var n := |ins| - 1;
    var at := prevAt + WithInput(n, outs);
    forall a, b | 0 <= a < |ins| && 0 <= b < |msgs| && ins[a].name == rule.inName && msgs[b].name == rule.outName
      ensures (a, b) in at
    {
      if a == n {
        var p :| 0 <= p < |outs| && outs[p] == b;
        assert at[|prevAt| + p] == (a, b);
      } else {
        assert ins[..n][a] == ins[a];
        assert (a, b) in prevAt;
      }
    }
  }

  /** Call `call` was made for input message `ins[at.0]` and output message `msgs[at.1]`, both matching `rule`. */
  predicate PairCall(service: string, rule: RuleRec, ins: seq<Message>, msgs: seq<Message>,
                     at: (nat, nat), call: AppCall)
  {
    at.0 < |ins| && at.1 < |msgs| &&
    ins[at.0].name == rule.inName && msgs[at.1].name == rule.outName &&
    call == AddServiceModuleCall(service, ins[at.0], msgs[at.1], rule.threshold)
  }

  /** Rule registrations are made only for processing modules that have an entry in `transmissions`. */
  lemma {:induction false} ServiceCallsOnlyEmitting(modules: seq<ModuleRec>, transmissions: map<string, seq<RuleRec>>,
                                                    msgs: seq<Message>)
    ensures forall c :: c in ServiceCalls(modules, transmissions, msgs) ==>
              c.AddServiceModuleCall? &&
              exists i :: (0 <= i < |modules| && Emits(modules[i], transmissions) && modules[i].name == c.service)
  {
    if |modules| > 0 {
      var n := |modules| - 1;
      assert forall i :: 0 <= i < n ==> modules[..n][i] == modules[i];
      ServiceCallsOnlyEmitting(modules[..n], transmissions, msgs);
      if Emits(modules[n], transmissions) {
        RuleCallsFor(modules[n].name, transmissions[modules[n].name], msgs);
      }
    }
  }

  /** Every call made for a service's rules names that service. */
  lemma {:induction false} RuleCallsFor(service: string, rules: seq<RuleRec>, msgs: seq<Message>)
    ensures forall c :: c in RuleCalls(service, rules, msgs) ==> c.AddServiceModuleCall? && c.service == service
  {
    if |rules| > 0 {
      RuleCallsFor(service, rules[..|rules| - 1], msgs);
      var at := MatchPairsTrace(service, rules[|rules| - 1], msgs, msgs);
      var mp := MatchPairs(service, rules[|rules| - 1], msgs, msgs);
      assert forall p :: 0 <= p < |mp| ==> mp[p].AddServiceModuleCall? && mp[p].service == service by {
        forall p | 0 <= p < |mp| ensures mp[p].AddServiceModuleCall? && mp[p].service == service {
          assert PairCall(service, rules[|rules| - 1], msgs, msgs, at[p], mp[p]);
        }
      }
    }
  }

  /** Entries of `transmissions` not keyed by a processing module of the application are ignored. */
  lemma {:induction false} ServiceCallsIgnoreOtherEntries(modules: seq<ModuleRec>,
                                                          t1: map<string, seq<RuleRec>>,
                                                          t2: map<string, seq<RuleRec>>,
                                                          msgs: seq<Message>)
    requires forall i :: 0 <= i < |modules| && modules[i].kind == TypeModule ==>
               (modules[i].name in t1 <==> modules[i].name in t2) &&
               (modules[i].name in t1 ==> t1[modules[i].name] == t2[modules[i].name])
    ensures ServiceCalls(modules, t1, msgs) == ServiceCalls(modules, t2, msgs)
  {
    if |modules| > 0 {
      var n := |modules| - 1;
      assert forall i :: 0 <= i < n ==> modules[..n][i] == modules[i];
      ServiceCallsIgnoreOtherEntries(modules[..n], t1, t2, msgs);
    }
  }

  /**
   * With unique message names, a rule whose names both occur yields exactly
   * the one call the dictionary version makes for it.
   */
  lemma MatchPairsUnique(service: string, rule: RuleRec, msgs: seq<Message>)
    requires UniqueNames(msgs)
    requires rule.inName in DictAssembly.IndexByName(msgs) && rule.outName in DictAssembly.IndexByName(msgs)
    ensures var d := DictAssembly.IndexByName(msgs);
            MatchPairs(service, rule, msgs, msgs) ==
            [AddServiceModuleCall(service, d[rule.inName], d[rule.outName], rule.threshold)]
  {
    var d := DictAssembly.IndexByName(msgs);
    DictAssembly.IndexByNameKeys(msgs);
    DictAssembly.IndexByNameLastWins(msgs);
    CountNameUnique(msgs, rule.inName);
    CountNameUnique(msgs, rule.outName);
    MatchPairsCount(service, rule, msgs, msgs);
    var at := MatchPairsTrace(service, rule, msgs, msgs);
    var calls := MatchPairs(service, rule, msgs, msgs);
    assert |calls| == 1;
    assert PairCall(service, rule, msgs, msgs, at[0], calls[0]);
    var i :| 0 <= i < |msgs| && msgs[i] == d[rule.inName] && msgs[i].name == rule.inName &&
             forall j :: i < j < |msgs| ==> msgs[j].name != rule.inName;
    var o :| 0 <= o < |msgs| && msgs[o] == d[rule.outName] && msgs[o].name == rule.outName &&
             forall j :: o < j < |msgs| ==> msgs[j].name != rule.outName;
    assert at[0].0 == i && at[0].1 == o;
  }

  /**
   * When message names are unique and every rule resolves, scanning and
   * dictionary lookup register the same rules, in the same order.
   */
  lemma {:induction false} RuleCallsAgree(service: string, rules: seq<RuleRec>, msgs: seq<Message>)
    requires UniqueNames(msgs)
    requires DictAssembly.RuleCalls(service, rules, DictAssembly.IndexByName(msgs)).Ok?
    ensures RuleCalls(service, rules, msgs) == DictAssembly.RuleCalls(service, rules, DictAssembly.IndexByName(msgs)).value
  {
    if |rules| > 0 {
      var n := |rules| - 1;
      var d := DictAssembly.IndexByName(msgs);
      assert DictAssembly.RuleCalls(service, rules[..n], d).Ok?;
      RuleCallsAgree(service, rules[..n], msgs);
      MatchPairsUnique(service, rules[n], msgs);
    }
  }

  /**
   * When message names are unique and every rule resolves, both versions
   * make the same rule registrations.
   */
  lemma {:induction false} ServiceCallsAgree(modules: seq<ModuleRec>, transmissions: map<string, seq<RuleRec>>,
                                             msgs: seq<Message>)
    requires UniqueNames(msgs)
    requires DictAssembly.ServiceCalls(modules, transmissions, DictAssembly.IndexByName(msgs)).Ok?
    ensures ServiceCalls(modules, transmissions, msgs) ==
            DictAssembly.ServiceCalls(modules, transmissions, DictAssembly.IndexByName(msgs)).value
  {
    if |modules| > 0 {
      var n := |modules| - 1;
      var d := DictAssembly.IndexByName(msgs);
      assert forall i :: 0 <= i < n ==> modules[..n][i] == modules[i];
      assert DictAssembly.ServiceCalls(modules[..n], transmissions, d).Ok?;
      ServiceCallsAgree(modules[..n], transmissions, msgs);
      if Emits(modules[n], transmissions) {
        RuleCallsAgree(modules[n].name, transmissions[modules[n].name], msgs);
      }
    }
  }

  /**
   * The two versions of `create_application` make the same calls when
   * message names are unique, no record carries a noise parameter and the
   * dictionary version raises no KeyError.
   */
  lemma CreateApplicationAgrees(modules: seq<ModuleRec>, recs: seq<MessageRec>,
                                transmissions: map<string, seq<RuleRec>>)
    requires forall i :: 0 <= i < |recs| ==> recs[i].std.None?
    requires forall i, j :: 0 <= i < j < |recs| ==> recs[i].name != recs[j].name
    requires DictAssembly.CreateApplicationSpec(modules, recs, transmissions).Ok?
    ensures CreateApplicationSpec(modules, recs, transmissions) ==
            DictAssembly.CreateApplicationSpec(modules, recs, transmissions).value
  {
    var msgs := BuildMessages(recs);
    assert msgs == DictAssembly.BuildMessages(recs);
    ServiceCallsAgree(modules, transmissions, msgs);
  }

  /** The innermost loop over `message_out`. */
  method RegisterOuts(a: Application, service: string, rule: RuleRec, messageIn: Message, messagesList: seq<Message>)
    modifies a
    ensures a.calls == old(a.calls) + MatchOut(service, rule, messageIn, messagesList)
  {
    var j := 0;
    while j < |messagesList|
      invariant 0 <= j <= |messagesList|
      invariant a.calls == old(a.calls) + MatchOut(service, rule, messageIn, messagesList[..j])
    {
      assert messagesList[..j + 1][..j] == messagesList[..j];
      var messageOut := messagesList[j];
      if messageIn.name == rule.inName && messageOut.name == rule.outName {
        a.AddServiceModule(service, messageIn, messageOut, rule.threshold);
      }
      j := j + 1;
    }
    assert messagesList[..j] == messagesList;
  }

  /** The loop over `message_in` for one rule. */
  method RegisterPairs(a: Application, service: string, rule: RuleRec, messagesList: seq<Message>)
    modifies a
    ensures a.calls == old(a.calls) + MatchPairs(service, rule, messagesList, messagesList)
  {
    var i := 0;
    while i < |messagesList|
      invariant 0 <= i <= |messagesList|
      invariant a.calls == old(a.calls) + MatchPairs(service, rule, messagesList[..i], messagesList)
    {
      assert messagesList[..i + 1][..i] == messagesList[..i];
      RegisterOuts(a, service, rule, messagesList[i], messagesList);
      i := i + 1;
    }
    assert messagesList[..i] == messagesList;
  }

  /** The loop over one service's rules. */
  method RegisterRules(a: Application, service: string, rules: seq<RuleRec>, messagesList: seq<Message>)
    modifies a
    ensures a.calls == old(a.calls) + RuleCalls(service, rules, messagesList)
  {
    var k := 0;
    while k < |rules|
      invariant 0 <= k <= |rules|
      invariant a.calls == old(a.calls) + RuleCalls(service, rules[..k], messagesList)
    {
      assert rules[..k + 1][..k] == rules[..k];
      ghost var done := RuleCalls(service, rules[..k], messagesList);
      var added := MatchPairs(service, rules[k], messagesList, messagesList);
      assert RuleCalls(service, rules[..k + 1], messagesList) == done + added;
      RegisterPairs(a, service, rules[k], messagesList);
      assert a.calls == old(a.calls) + (done + added);
      k := k + 1;
    }
    assert rules[..k] == rules;
  }

  /** The loop over `modules`. */
  method RegisterServices(a: Application, modules: seq<ModuleRec>, transmissions: map<string, seq<RuleRec>>,
                          messagesList: seq<Message>)
    modifies a
    ensures a.calls == old(a.calls) + ServiceCalls(modules, transmissions, messagesList)
  {
    var i := 0;
    while i < |modules|
      invariant 0 <= i <= |modules|
      invariant a.calls == old(a.calls) + ServiceCalls(modules[..i], transmissions, messagesList)
    {
      var m := modules[i];
      assert modules[..i + 1][..i] == modules[..i];
      // The scan `for transmission in transmissions.keys(): if transmission == name`
      // matches at most one key.
      if m.kind == TypeModule && m.name in transmissions {
        RegisterRules(a, m.name, transmissions[m.name], messagesList);
      }
      i := i + 1;
    }
    assert modules[..i] == modules;
  }

  /** `create_application`. */
  method CreateApplication(name: string, modules: seq<ModuleRec>, messages: seq<MessageRec>,
                           transmissions: map<string, seq<RuleRec>>)
    returns (a: Application)
    ensures fresh(a) && a.name == name
    ensures a.calls == CreateApplicationSpec(modules, messages, transmissions)
  {
    a := new Application(name);
    a.SetModules(modules);
    var messagesList: seq<Message> := [];
    var i := 0;
    while i < |messages|
      invariant 0 <= i <= |messages|
      invariant messagesList == BuildMessages(messages[..i])
    {
      assert messages[..i + 1][..i] == messages[..i];
      messagesList := messagesList + [ToMessage(messages[i])];
      i := i + 1;
    }
    assert messages[..i] == messages;
    RegisterSources(a, messages, messagesList);
    RegisterServices(a, modules, transmissions, messagesList);
  }
}
