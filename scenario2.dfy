/**
 * The scenario of tests/test2/test2.py: its topology (`create_json_topology`,
 * built by appending to empty lists), the module, message and transmission
 * literals of `main`, and the placement loop that gives each application a
 * CloudPlacement whose tag is a plain string.
 */
module Test2Scenario {
  import opened Wrappers
  import opened Topology
  import opened AppModel
  import opened Placement
  import ScanAssembly

  /** The five devices and five links, in the order they are appended. */
  function Topology2(): TopologyJson
  {
    TopologyJson(
      [ Device(0, "sensor-device", None, 1006, 4000, 3, 40.0),
        Device(1, "cloud", Some("cloud1"), 50006, 40000, 3, 20.0),
        Device(2, "cloud", Some("cloud2"), 50006, 40000, 3, 20.0),
        Device(3, "actuator-device-1", None, 1006, 4000, 3, 40.0),
        Device(4, "actuator-device-2", None, 1006, 4000, 3, 40.0) ],
      [ Link(0, 1, 1.0, 2.0), Link(0, 2, 1.0, 4.0), Link(1, 3, 1.0, 2.0),
        Link(1, 4, 1.0, 10.0), Link(2, 4, 1.0, 6.0) ])
  }

  /** `modules["app_" + str(n)]` for n in {1, 2}: a sensor, a service and an actuator, all numbered n. */
  function Modules2(n: nat): seq<ModuleRec>
    requires 1 <= n <= 2
  {
    if n == 1 then
      [ ModuleRec("Sensor1", TypeSource, None), ModuleRec("Service1", TypeModule, Some(10)),
        ModuleRec("Actuator1", TypeSink, None) ]
    else
      [ ModuleRec("Sensor2", TypeSource, None), ModuleRec("Service2", TypeModule, Some(10)),
        ModuleRec("Actuator2", TypeSink, None) ]
  }

  /** `messages["app_" + str(n)]`: the records carry no "std" key. */
  function Messages2(n: nat): seq<MessageRec>
    requires 1 <= n <= 2
  {
    if n == 1 then
      [ MessageRec("M.A_1", "Sensor1", "Service1", 298, 1000, true, None),
        MessageRec("M.B_1", "Service1", "Actuator1", 298, 1000, false, None) ]
    else
      [ MessageRec("M.A_2", "Sensor2", "Service2", 298, 1000, true, None),
        MessageRec("M.B_2", "Service2", "Actuator2", 298, 1000, false, None) ]
  }

  function Transmissions2(n: nat): map<string, seq<RuleRec>>
    requires 1 <= n <= 2
  {
    if n == 1 then map["Service1" := [RuleRec("M.A_1", "M.B_1", 1.0)]]
    else map["Service2" := [RuleRec("M.A_2", "M.B_2", 1.0)]]
  }

  /** `cloud_tags`: a list of strings, so each placement's tag is a string. */
  function CloudTags2(): seq<string>
  {
    ["cloud1", "cloud2"]
  }

  /** `{"Service" + str(idx + 1): 1}` for the placement of application idx. */
  function Scale2(idx: nat): map<string, int>
    requires idx < 2
  {
    if idx == 0 then map["Service1" := 1] else map["Service2" := 1]
  }

  /** The exclusive-or values Literals2 needs, as ground facts. */
  lemma XorValues2()
    ensures Xor(100 * 10, 6) == 1006
    ensures Xor(5000 * 10, 6) == 50006
  {
    XorLowBits(1000, 6);
    XorLowBits(50000, 6);
  }

  /** The IPT and instruction literals as Python evaluates them. */
  lemma Literals2()
    ensures Topology2().entity[0].ipt == Xor(100 * 10, 6)
    ensures Topology2().entity[1].ipt == Xor(5000 * 10, 6)
    ensures Topology2().entity[2].ipt == Xor(5000 * 10, 6)
    ensures Topology2().entity[3].ipt == Topology2().entity[4].ipt == Xor(100 * 10, 6)
    ensures forall n, i :: 1 <= n <= 2 && 0 <= i < 2 ==> Messages2(n)[i].instructions == Xor(30 * 10, 6)
  {
    var e := Topology2().entity;
    assert e[0].ipt == e[3].ipt == e[4].ipt == 1006 && e[1].ipt == e[2].ipt == 50006;
    assert forall n, i :: 1 <= n <= 2 && 0 <= i < 2 ==> Messages2(n)[i].instructions == 298;
    XorValues2();
    XorThreeHundredSix();
  }

  /** Ids are 0..4 in order, so distinct, and every link joins two declared devices. */
  lemma Topology2Links()
    ensures IdsArePositions(Topology2().entity) && UniqueIds(Topology2().entity)
    ensures LinksDeclared(Topology2())
  {
    var t := Topology2();
    PositionalIdsUnique(t.entity);
    forall l | l in t.link
      ensures Declared(t.entity, l.s) && Declared(t.entity, l.d)
    {
      PositionalDeclared(t.entity, l.s);
      PositionalDeclared(t.entity, l.d);
    }
  }

  /** cloud1 and cloud2 each tag exactly one device: 1 and 2. */
  lemma Topology2Tags()
    ensures FindIDs(Topology2().entity, "cloud1") == [1]
    ensures FindIDs(Topology2().entity, "cloud2") == [2]
    ensures TagsOneDevice(Topology2().entity, "cloud1") && TagsOneDevice(Topology2().entity, "cloud2")
  {
  }

  /** Both applications are well formed: names unique, messages between declared modules, rules matching. */
  lemma Applications2WellFormed(n: nat)
    requires 1 <= n <= 2
    ensures WellFormedApp(Modules2(n), Messages2(n), Transmissions2(n))
  {
    var m, r := Modules2(n), Messages2(n);
    forall i | 0 <= i < |r|
      ensures DeclaredModule(m, r[i].src) && DeclaredModule(m, r[i].dst)
    {
      assert r[i].src in {m[0].name, m[1].name, m[2].name} && r[i].dst in {m[0].name, m[1].name, m[2].name};
    }
    var service := if n == 1 then "Service1" else "Service2";
    var t := Transmissions2(n);
    RulesMatchByPositions(r, service, t[service], [0], [1]);
    forall s: string, k: int | s in t && 0 <= k < |t[s]|
      ensures RuleMatches(r, s, t[s][k])
    {
      assert s == service;
    }
  }

  /**
   * The nested-loop assembly of application n yields `set_modules`, one
   * source registration for the sensor's message and exactly one rule
   * registration, from the sensor's message to the actuator's.
   */
  lemma Applications2Assemble(n: nat)
    requires 1 <= n <= 2
    ensures var r := Messages2(n);
            var service := if n == 1 then "Service1" else "Service2";
            ScanAssembly.CreateApplicationSpec(Modules2(n), r, Transmissions2(n)) ==
              [ SetModulesCall(Modules2(n)),
                AddSourceMessagesCall(ScanAssembly.ToMessage(r[0])),
                AddServiceModuleCall(service, ScanAssembly.ToMessage(r[0]), ScanAssembly.ToMessage(r[1]), 1.0) ]
  {
    var service := if n == 1 then "Service1" else "Service2";
    OneRuleAssemble(Modules2(n), Messages2(n), Transmissions2(n), service);
  }

  /**
   * The shape both applications share: a non-processing module, the
   * service, another non-processing module; a source message then a
   * non-source one; one rule from the first to the second.
   */
  lemma OneRuleAssemble(m: seq<ModuleRec>, r: seq<MessageRec>, t: map<string, seq<RuleRec>>, service: string)
    requires |m| == 3 && m[0].kind != TypeModule && m[2].kind != TypeModule
    requires m[1].kind == TypeModule && m[1].name == service
    requires |r| == 2 && r[0].pop && !r[1].pop && r[0].name != r[1].name
    requires t == map[service := [RuleRec(r[0].name, r[1].name, 1.0)]]
    ensures ScanAssembly.CreateApplicationSpec(m, r, t) ==
              [ SetModulesCall(m),
                AddSourceMessagesCall(ScanAssembly.ToMessage(r[0])),
                AddServiceModuleCall(service, ScanAssembly.ToMessage(r[0]), ScanAssembly.ToMessage(r[1]), 1.0) ]
  {
    var msgs := ScanAssembly.BuildMessages(r);
    var a, b := ScanAssembly.ToMessage(r[0]), ScanAssembly.ToMessage(r[1]);
    assert msgs == [a, b];
    assert msgs[..1] == [a] && msgs[..1][..0] == [];
    assert r[..1] == [r[0]] && r[..1][..0] == [];
    assert SourceCalls(r[..1], msgs[..1]) == [AddSourceMessagesCall(a)];
    assert SourceCalls(r, msgs) == [AddSourceMessagesCall(a)];
    var rule := t[service][0];
    var call := AddServiceModuleCall(service, a, b, 1.0);
    assert ScanAssembly.MatchOut(service, rule, a, msgs[..1]) == [];
    assert ScanAssembly.MatchOut(service, rule, a, msgs) == [call];
    assert ScanAssembly.MatchOut(service, rule, b, msgs[..1]) == [];
    assert ScanAssembly.MatchOut(service, rule, b, msgs) == [];
    assert ScanAssembly.MatchPairs(service, rule, msgs[..1], msgs) == [call];
    assert ScanAssembly.MatchPairs(service, rule, msgs, msgs) == [call];
    assert t[service][..0] == [];
    assert ScanAssembly.RuleCalls(service, t[service], msgs) == [call];
    assert m[..2][..1] == m[..1] && m[..1][..0] == [];
    assert ScanAssembly.ServiceCalls(m[..1], t, msgs) == [];
    assert ScanAssembly.ServiceCalls(m[..2], t, msgs) == [call];
    assert m[..3] == m;
  }

  /** A one-character tag is carried by no device of this topology. */
  lemma NoOneCharacterTag(t: string)
    requires |t| == 1
    ensures FindIDs(Topology2().entity, t) == []
  {
    forall d | d in Topology2().entity
      ensures d.mytag != Some(t)
    {
      assert d.mytag.None? || |d.mytag.value| == 6;
    }
    FindIDsNone(Topology2().entity, t);
  }

  /**
   * Placement idx is built with the string `cloud_tags[idx]` as its tag, so
   * `self.tag[pos]` is a single character and the device lookup finds
   * nothing: whatever the order of the application's service keys, every
   * deploy it issues targets an empty cluster.
   */
  lemma Placement2TargetsNoDevice(idx: nat, serviceKeys: seq<string>)
    requires idx < 2
    ensures var a := Allocate(Reversed(serviceKeys), TagText(CloudTags2()[idx]), Scale2(idx), Topology2().entity);
            forall p :: 0 <= p < |a.deploys| ==> a.deploys[p].cluster == []
  {
    var order := Reversed(serviceKeys);
    var tag := TagText(CloudTags2()[idx]);
    var a := Allocate(order, tag, Scale2(idx), Topology2().entity);
    var pos := AllocateTrace(order, tag, Scale2(idx), Topology2().entity);
    forall p | 0 <= p < |a.deploys|
      ensures a.deploys[p].cluster == []
    {
      NoOneCharacterTag(TagAt(tag, pos[p]).value);
    }
  }

  /**
   * With the single service key the application has, placement idx deploys
   * `Service<idx+1>` once, onto no device: the tag read is "c", the first
   * character of "cloud1" or "cloud2".
   */
  lemma Placements2(idx: nat)
    requires idx < 2
    ensures var service := if idx == 0 then "Service1" else "Service2";
            Allocate(Reversed([service]), TagText(CloudTags2()[idx]), Scale2(idx), Topology2().entity) ==
              Allocation([Deploy(service, [])], None)
  {
    var service := if idx == 0 then "Service1" else "Service2";
    var tag := TagText(CloudTags2()[idx]);
    assert Reversed([service]) == [service];
    assert [service][..0] == [];
    assert TagAt(tag, 0) == Some("c");
    NoOneCharacterTag("c");
    assert Replicas(service, [], 1) == [Deploy(service, [])];
  }
}
