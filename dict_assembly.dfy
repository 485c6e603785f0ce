/**
 * `create_application` of tests/test5/test5.py: messages are resolved by
 * name through a dictionary, so the last record bearing a name wins and a
 * rule naming an absent message raises KeyError.
 */
module DictAssembly {
  import opened Wrappers
  import opened AppModel

  /** `Message(name, src, dst, instructions, bytes, std)` built from one record. */
  function ToMessage(rec: MessageRec): Message
  {
    Message(rec.name, rec.src, rec.dst, rec.instructions, rec.bytes, rec.std)
  }

  /** `messages_list`: one Message per record, in input order, fields carried over unchanged. */
  function BuildMessages(recs: seq<MessageRec>): (msgs: seq<Message>)
    ensures |msgs| == |recs|
    ensures forall i :: 0 <= i < |recs| ==>
              msgs[i].name == recs[i].name && msgs[i].src == recs[i].src &&
              msgs[i].dst == recs[i].dst && msgs[i].instructions == recs[i].instructions &&
              msgs[i].bytes == recs[i].bytes && msgs[i].std == recs[i].std
  {
    if |recs| == 0 then []
    else BuildMessages(recs[..|recs| - 1]) + [ToMessage(recs[|recs| - 1])]
  }

  /** `messages_dict`: filled in list order, a later name overwriting an earlier one. */
  function IndexByName(msgs: seq<Message>): map<string, Message>
  {
    if |msgs| == 0 then map[]
    else IndexByName(msgs[..|msgs| - 1])[msgs[|msgs| - 1].name := msgs[|msgs| - 1]]
  }

  /** The keys of `messages_dict` are exactly the names that occur. */
  lemma {:induction false} IndexByNameKeys(msgs: seq<Message>)
    ensures forall name :: name in IndexByName(msgs) <==>
              exists i :: 0 <= i < |msgs| && msgs[i].name == name
  {
    if |msgs| > 0 {
      var n := |msgs| - 1;
      var prefix := msgs[..n];
      IndexByNameKeys(prefix);
      var pd := IndexByName(prefix);
      var d := IndexByName(msgs);
      assert d == pd[msgs[n].name := msgs[n]];
      forall name
        ensures name in d <==> exists i :: 0 <= i < |msgs| && msgs[i].name == name
      {
        if name != msgs[n].name {
          if exists i :: 0 <= i < |msgs| && msgs[i].name == name {
            var i :| 0 <= i < |msgs| && msgs[i].name == name;
            assert prefix[i].name == name;
          }
          if name in pd {
            var i :| 0 <= i < n && prefix[i].name == name;
            assert msgs[i].name == name;
          }
        }
      }
    }
  }

  /** Each key of `messages_dict` maps to the last message bearing that name. */
  lemma {:induction false} IndexByNameLastWins(msgs: seq<Message>)
    ensures forall name :: name in IndexByName(msgs) ==>
              exists i :: 0 <= i < |msgs| && msgs[i] == IndexByName(msgs)[name] && msgs[i].name == name &&
                forall j :: i < j < |msgs| ==> msgs[j].name != name
  {
    if |msgs| > 0 {
      var n := |msgs| - 1;
      var prefix := msgs[..n];
      IndexByNameLastWins(prefix);
      var pd := IndexByName(prefix);
      var d := IndexByName(msgs);
      assert d == pd[msgs[n].name := msgs[n]];
      forall name | name in d
        ensures exists i :: 0 <= i < |msgs| && msgs[i] == d[name] && msgs[i].name == name &&
                  forall j :: i < j < |msgs| ==> msgs[j].name != name
      {
        if name == msgs[n].name {
          assert msgs[n] == d[name];
        } else {
          assert name in pd;
          var i :| 0 <= i < n && prefix[i] == pd[name] && prefix[i].name == name &&
                   forall j :: i < j < n ==> prefix[j].name != name;
          assert msgs[i] == d[name];
        }
      }
    }
  }

  /**
   * The calls for one service's rule list: one `add_service_module` per
   * rule, in rule order, or the KeyError of the first rule whose input
   * (looked up first) or output name is absent.
   */
  function RuleCalls(service: string, rules: seq<RuleRec>, dict: map<string, Message>): (r: Result<seq<AppCall>, string>)
    ensures r.Ok? <==> forall k :: 0 <= k < |rules| ==> rules[k].inName in dict && rules[k].outName in dict
    ensures r.Ok? ==> |r.value| == |rules|
    ensures r.Ok? ==> forall k :: 0 <= k < |rules| ==>
              r.value[k] == AddServiceModuleCall(service, dict[rules[k].inName], dict[rules[k].outName], rules[k].threshold)
    ensures r.Err? ==> exists k :: (0 <= k < |rules| &&
              (forall j :: 0 <= j < k ==> rules[j].inName in dict && rules[j].outName in dict) &&
              r.error == (if rules[k].inName !in dict then rules[k].inName else rules[k].outName) &&
              (rules[k].inName !in dict || rules[k].outName !in dict))
  {
    if |rules| == 0 then Ok([])
    else
      var n := |rules| - 1;
      var prev := RuleCalls(service, rules[..n], dict);
      assert forall k :: 0 <= k < n ==> rules[..n][k] == rules[k];
      if prev.Err? then prev
      else if rules[n].inName !in dict then Err(rules[n].inName)
      else if rules[n].outName !in dict then Err(rules[n].outName)
      else
        var call := AddServiceModuleCall(service, dict[rules[n].inName], dict[rules[n].outName], rules[n].threshold);
        Ok(prev.value + [call])
  }

  /** Every rule of every emitting module names messages present in the dictionary. */
  predicate AllRulesResolve(modules: seq<ModuleRec>, transmissions: map<string, seq<RuleRec>>,
                            dict: map<string, Message>)
  {
    forall i, k :: 0 <= i < |modules| && Emits(modules[i], transmissions) &&
                   0 <= k < |transmissions[modules[i].name]| ==>
      transmissions[modules[i].name][k].inName in dict && transmissions[modules[i].name][k].outName in dict
  }

  /**
   * The rule registrations of the loop over `modules`: processing modules
   * with an entry in `transmissions` contribute their rule calls, in module
   * order; everything else contributes nothing.
   */
  function ServiceCalls(modules: seq<ModuleRec>, transmissions: map<string, seq<RuleRec>>,
                        dict: map<string, Message>): (r: Result<seq<AppCall>, string>)
    ensures r.Ok? <==> AllRulesResolve(modules, transmissions, dict)
  {
    if |modules| == 0 then Ok([])
    else
      var n := |modules| - 1;
      var prev := ServiceCalls(modules[..n], transmissions, dict);
      assert forall i :: 0 <= i < n ==> modules[..n][i] == modules[i];
      if prev.Err? then prev
      else if Emits(modules[n], transmissions) then
        match RuleCalls(modules[n].name, transmissions[modules[n].name], dict)
        case Err(e) => Err(e)
        case Ok(c) => Ok(prev.value + c)
      else prev
  }

  /**
   * A scenario whose rules match their services (every rule's input and
   * output message exists) never raises KeyError: every lookup of
   * `messages_dict` succeeds.
   */
  lemma MatchedRulesResolve(modules: seq<ModuleRec>, recs: seq<MessageRec>,
                            transmissions: map<string, seq<RuleRec>>)
    requires RulesMatchService(recs, transmissions)
    ensures AllRulesResolve(modules, transmissions, IndexByName(BuildMessages(recs)))
    ensures ServiceCalls(modules, transmissions, IndexByName(BuildMessages(recs))).Ok?
  {
    var msgs := BuildMessages(recs);
    IndexByNameKeys(msgs);
    forall i, k | 0 <= i < |modules| && Emits(modules[i], transmissions) &&
                  0 <= k < |transmissions[modules[i].name]|
      ensures transmissions[modules[i].name][k].inName in IndexByName(msgs)
      ensures transmissions[modules[i].name][k].outName in IndexByName(msgs)
    {
      var rule := transmissions[modules[i].name][k];
      assert RuleMatches(recs, modules[i].name, rule);
      var a :| 0 <= a < |recs| && recs[a].name == rule.inName && recs[a].dst == modules[i].name;
      var b :| 0 <= b < |recs| && recs[b].name == rule.outName && recs[b].src == modules[i].name;
      assert msgs[a].name == rule.inName && msgs[b].name == rule.outName;
    }
  }

  /** The whole call log of `create_application`, or the KeyError it raises. */
  function CreateApplicationSpec(modules: seq<ModuleRec>, recs: seq<MessageRec>,
                                 transmissions: map<string, seq<RuleRec>>): Result<seq<AppCall>, string>
  {
    var msgs := BuildMessages(recs);
    match ServiceCalls(modules, transmissions, IndexByName(msgs))
    case Err(e) => Err(e)
    case Ok(sc) => Ok([SetModulesCall(modules)] + SourceCalls(recs, msgs) + sc)
  }

  /** A rule list that has failed stays failed with the same error. */
  lemma {:induction false} RuleCallsStopAtError(service: string, rules: seq<RuleRec>, i: nat,
                                                dict: map<string, Message>)
    requires i <= |rules|
    requires RuleCalls(service, rules[..i], dict).Err?
    ensures RuleCalls(service, rules, dict) == RuleCalls(service, rules[..i], dict)
    decreases |rules|
  {
    if i < |rules| {
      assert rules[..|rules| - 1][..i] == rules[..i];
      RuleCallsStopAtError(service, rules[..|rules| - 1], i, dict);
    } else {
      assert rules[..i] == rules;
    }
  }

  /** A module list that has failed stays failed with the same error. */
  lemma {:induction false} ServiceCallsStopAtError(modules: seq<ModuleRec>, i: nat,
                                                   transmissions: map<string, seq<RuleRec>>,
                                                   dict: map<string, Message>)
    requires i <= |modules|
    requires ServiceCalls(modules[..i], transmissions, dict).Err?
    ensures ServiceCalls(modules, transmissions, dict) == ServiceCalls(modules[..i], transmissions, dict)
    decreases |modules|
  {
    if i < |modules| {
      assert modules[..|modules| - 1][..i] == modules[..i];
      ServiceCallsStopAtError(modules[..|modules| - 1], i, transmissions, dict);
    } else {
      assert modules[..i] == modules;
    }
  }

  /** The positions `(n, 0), ..., (n, m - 1)`: the m rules of module n, in order. */
  function RulePositions(n: nat, m: nat): (r: seq<(nat, nat)>)
    ensures |r| == m && forall k :: 0 <= k < m ==> r[k] == (n, k)
  {
    seq(m, k requires 0 <= k < m => (n, k))
  }

  /** Call p registers the rule at position `src[p]`. */
  predicate TracesCalls(modules: seq<ModuleRec>, transmissions: map<string, seq<RuleRec>>,
                        dict: map<string, Message>, src: seq<(nat, nat)>, calls: seq<AppCall>)
  {
    |src| == |calls| && forall p :: 0 <= p < |src| ==> TracedCall(modules, transmissions, dict, src[p], calls[p])
  }

  /** Every rule of every emitting module occurs among the positions. */
  predicate TracesAllRules(modules: seq<ModuleRec>, transmissions: map<string, seq<RuleRec>>, src: seq<(nat, nat)>)
  {
    forall i, k :: (0 <= i < |modules| && Emits(modules[i], transmissions) &&
                    0 <= k < |transmissions[modules[i].name]|) ==> (i, k) in src
  }

  /** The positions traced for the first n + 1 modules: those for the first n, then module n's rules if it emits. */
  function ExtendTrace(modules: seq<ModuleRec>, transmissions: map<string, seq<RuleRec>>, prevSrc: seq<(nat, nat)>): seq<(nat, nat)>
    requires |modules| > 0
  {
    var n := |modules| - 1;
    if Emits(modules[n], transmissions) then prevSrc + RulePositions(n, |transmissions[modules[n].name]|) else prevSrc
  }

  /**
   * Where every rule registration comes from: call p was made for rule
   * `src[p].1` of module `src[p].0`, which is an emitting module; the
   * sources increase strictly in (module, rule) order and every rule of
   * every emitting module occurs, so there is exactly one call per rule,
   * with the threshold passed unchanged.
   */
  lemma {:induction false} ServiceCallsTrace(modules: seq<ModuleRec>, transmissions: map<string, seq<RuleRec>>,
                                             dict: map<string, Message>)
    returns (src: seq<(nat, nat)>)
    requires ServiceCalls(modules, transmissions, dict).Ok?
    ensures TracesCalls(modules, transmissions, dict, src, ServiceCalls(modules, transmissions, dict).value)
    ensures LexSorted(src) && TracesAllRules(modules, transmissions, src)
    decreases |modules|
  {
    if |modules| == 0 {
      src := [];
    } else {
      var n := |modules| - 1;
      var prevSrc := ServiceCallsTrace(modules[..n], transmissions, dict);
      src := ExtendTrace(modules, transmissions, prevSrc);
      TracesCallsExtend(modules, transmissions, dict, prevSrc);
      TracesAllRulesExtend(modules, transmissions, prevSrc);
      if Emits(modules[n], transmissions) {
        LexSortedAppend(prevSrc, RulePositions(n, |transmissions[modules[n].name]|), n);
      }
    }
  }

  /** The calls of the first n modules and of module n, each traced to its rule. */
  lemma TracesCallsExtend(modules: seq<ModuleRec>, transmissions: map<string, seq<RuleRec>>,
                          dict: map<string, Message>, prevSrc: seq<(nat, nat)>)
    requires |modules| > 0 && ServiceCalls(modules, transmissions, dict).Ok?
    requires ServiceCalls(modules[..|modules| - 1], transmissions, dict).Ok?
    requires TracesCalls(modules[..|modules| - 1], transmissions, dict, prevSrc,
                         ServiceCalls(modules[..|modules| - 1], transmissions, dict).value)
    ensures TracesCalls(modules, transmissions, dict, ExtendTrace(modules, transmissions, prevSrc),
                        ServiceCalls(modules, transmissions, dict).value)
    ensures forall p :: 0 <= p < |prevSrc| ==> prevSrc[p].0 < |modules| - 1
  {
    var n := |modules| - 1;
    var prefix := modules[..n];
    var prevCalls := ServiceCalls(prefix, transmissions, dict).value;
    forall p | 0 <= p < |prevSrc|
      ensures TracedCall(modules, transmissions, dict, prevSrc[p], prevCalls[p]) && prevSrc[p].0 < n
    {
      assert TracedCall(prefix, transmissions, dict, prevSrc[p], prevCalls[p]);
      assert prefix[prevSrc[p].0] == modules[prevSrc[p].0];
    }
    if Emits(modules[n], transmissions) {
      var rules := transmissions[modules[n].name];
      var c := RuleCalls(modules[n].name, rules, dict).value;
      var src := prevSrc + RulePositions(n, |rules|);
      var calls := prevCalls + c;
      assert calls == ServiceCalls(modules, transmissions, dict).value;
      forall p | 0 <= p < |src|
        ensures TracedCall(modules, transmissions, dict, src[p], calls[p])
      {
        if p < |prevSrc| {
          assert src[p] == prevSrc[p] && calls[p] == prevCalls[p];
        } else {
          assert src[p] == (n, p - |prevSrc|) && calls[p] == c[p - |prevSrc|];
        }
      }
    }
  }

  /** Every rule of the first n modules and of module n occurs among the extended positions. */
  lemma TracesAllRulesExtend(modules: seq<ModuleRec>, transmissions: map<string, seq<RuleRec>>, prevSrc: seq<(nat, nat)>)
    requires |modules| > 0 && TracesAllRules(modules[..|modules| - 1], transmissions, prevSrc)
    ensures TracesAllRules(modules, transmissions, ExtendTrace(modules, transmissions, prevSrc))
  {
    var n := |modules| - 1;
    var src := ExtendTrace(modules, transmissions, prevSrc);
    forall i, k | 0 <= i < |modules| && Emits(modules[i], transmissions) && 0 <= k < |transmissions[modules[i].name]|
      ensures (i, k) in src
    {
      if i == n {
        assert src[|prevSrc| + k] == (n, k);
      } else {
        assert modules[..n][i] == modules[i];
        assert (i, k) in prevSrc;
      }
    }
  }

  /** Call `call` registers rule `at.1` of module `at.0`, an emitting module, unchanged. */
  predicate TracedCall(modules: seq<ModuleRec>, transmissions: map<string, seq<RuleRec>>,
                       dict: map<string, Message>, at: (nat, nat), call: AppCall)
  {
    at.0 < |modules| && Emits(modules[at.0], transmissions) &&
    at.1 < |transmissions[modules[at.0].name]| &&
    var rule := transmissions[modules[at.0].name][at.1];
    rule.inName in dict && rule.outName in dict &&
    call == AddServiceModuleCall(modules[at.0].name, dict[rule.inName], dict[rule.outName], rule.threshold)
  }

  /**
   * Entries of `transmissions` that are not keyed by a processing module of
   * the application (sources, sinks, undeclared names) are ignored.
   */
  lemma {:induction false} ServiceCallsIgnoreOtherEntries(modules: seq<ModuleRec>,
                                                          t1: map<string, seq<RuleRec>>,
                                                          t2: map<string, seq<RuleRec>>,
                                                          dict: map<string, Message>)
    requires forall i :: 0 <= i < |modules| && modules[i].kind == TypeModule ==>
               (modules[i].name in t1 <==> modules[i].name in t2) &&
               (modules[i].name in t1 ==> t1[modules[i].name] == t2[modules[i].name])
    ensures ServiceCalls(modules, t1, dict) == ServiceCalls(modules, t2, dict)
    decreases |modules|
  {
    if |modules| > 0 {
      var n := |modules| - 1;
      assert forall i :: 0 <= i < n ==> modules[..n][i] == modules[i];
      ServiceCallsIgnoreOtherEntries(modules[..n], t1, t2, dict);
    }
  }

  /** The loop filling `messages_list`. */
  method MessagesList(messages: seq<MessageRec>) returns (messagesList: seq<Message>)
    ensures messagesList == BuildMessages(messages)
  {
    messagesList := [];
    var i := 0;
    while i < |messages|
      invariant 0 <= i <= |messages|
      invariant messagesList == BuildMessages(messages[..i])
    {
      assert messages[..i + 1][..i] == messages[..i];
      messagesList := messagesList + [ToMessage(messages[i])];
      i := i + 1;
    }
    assert messages[..i] == messages;
  }

  /** The loop filling `messages_dict`. */
  method MessagesDict(messagesList: seq<Message>) returns (messagesDict: map<string, Message>)
    ensures messagesDict == IndexByName(messagesList)
  {
    messagesDict := map[];
    var i := 0;
    while i < |messagesList|
      invariant 0 <= i <= |messagesList|
      invariant messagesDict == IndexByName(messagesList[..i])
    {
      assert messagesList[..i + 1][..i] == messagesList[..i];
      messagesDict := messagesDict[messagesList[i].name := messagesList[i]];
      i := i + 1;
    }
    assert messagesList[..i] == messagesList;
  }

  /** The loop over one service's rules; a missing name is the KeyError returned. */
  method RegisterRules(a: Application, service: string, rules: seq<RuleRec>, messagesDict: map<string, Message>)
    returns (keyError: Option<string>)
    modifies a
    ensures var spec := RuleCalls(service, rules, messagesDict);
            (keyError.None? <==> spec.Ok?) &&
            (spec.Ok? ==> a.calls == old(a.calls) + spec.value) &&
            (spec.Err? ==> keyError == Some(spec.error))
  {
    var k := 0;
    while k < |rules|
      invariant 0 <= k <= |rules|
      invariant RuleCalls(service, rules[..k], messagesDict).Ok?
      invariant a.calls == old(a.calls) + RuleCalls(service, rules[..k], messagesDict).value
    {
      var t := rules[k];
      assert rules[..k + 1][..k] == rules[..k];
      if t.inName !in messagesDict {
        RuleCallsStopAtError(service, rules, k + 1, messagesDict);
        return Some(t.inName);
      }
      if t.outName !in messagesDict {
        RuleCallsStopAtError(service, rules, k + 1, messagesDict);
        return Some(t.outName);
      }
      a.AddServiceModule(service, messagesDict[t.inName], messagesDict[t.outName], t.threshold);
      k := k + 1;
    }
    assert rules[..k] == rules;
    return None;
  }

  /** The loop over `modules` registering the rules of every emitting module. */
  method RegisterServices(a: Application, modules: seq<ModuleRec>, transmissions: map<string, seq<RuleRec>>,
                          messagesDict: map<string, Message>)
    returns (keyError: Option<string>)
    modifies a
    ensures var spec := ServiceCalls(modules, transmissions, messagesDict);
            (keyError.None? <==> spec.Ok?) &&
            (spec.Ok? ==> a.calls == old(a.calls) + spec.value) &&
            (spec.Err? ==> keyError == Some(spec.error))
  {
    var i := 0;
    while i < |modules|
      invariant 0 <= i <= |modules|
      invariant ServiceCalls(modules[..i], transmissions, messagesDict).Ok?
      invariant a.calls == old(a.calls) + ServiceCalls(modules[..i], transmissions, messagesDict).value
    {
      var m := modules[i];
      assert modules[..i + 1][..i] == modules[..i];
      // The scan `for service in transmissions.keys(): if service == name`
      // matches at most one key.
      if m.kind == TypeModule && m.name in transmissions {
        keyError := RegisterRules(a, m.name, transmissions[m.name], messagesDict);
        if keyError.Some? {
          ServiceCallsStopAtError(modules, i + 1, transmissions, messagesDict);
          return;
        }
      }
      i := i + 1;
    }
    assert modules[..i] == modules;
    return None;
  }

  /**
   * `create_application`: builds `messages_list` and `messages_dict`,
   * registers the source messages, then the service rules; a rule naming an
   * absent message raises KeyError and no application is returned.
   */
  method CreateApplication(name: string, modules: seq<ModuleRec>, messages: seq<MessageRec>,
                           transmissions: map<string, seq<RuleRec>>)
    returns (r: Result<Application, string>)
    ensures var spec := CreateApplicationSpec(modules, messages, transmissions);
            (r.Ok? <==> spec.Ok?) &&
            (r.Ok? ==> fresh(r.value) && r.value.name == name && r.value.calls == spec.value) &&
            (r.Err? ==> r.error == spec.error)
  {
    var a := new Application(name);
    a.SetModules(modules);
    var messagesList := MessagesList(messages);
    var messagesDict := MessagesDict(messagesList);
    RegisterSources(a, messages, messagesList);
    ghost var before := a.calls;
    assert before == [SetModulesCall(modules)] + SourceCalls(messages, messagesList);
    var keyError := RegisterServices(a, modules, transmissions, messagesDict);
    ghost var sc := ServiceCalls(modules, transmissions, messagesDict);
    if keyError.Some? {
      assert sc.Err? && CreateApplicationSpec(modules, messages, transmissions) == Err(sc.error);
      return Err(keyError.value);
    }
    assert CreateApplicationSpec(modules, messages, transmissions) == Ok(before + sc.value);
    return Ok(a);
  }
}
