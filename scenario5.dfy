/**
 * The scenario of tests/test5/test5.py: its topology (`create_json_topology`),
 * the module, message and transmission literals of `main`, and the two
 * CloudPlacement policies, with the well-formedness they satisfy.
 */
module Test5Scenario {
  import opened Wrappers
  import opened Topology
  import opened AppModel
  import opened Placement
  import DictAssembly

  function Topology5(): TopologyJson
  {
    TopologyJson(
      [ Device(0, "sensor-device-1", None, 98, 1000, 1, 40.0),
        Device(1, "sensor-device-2", None, 98, 1000, 1, 40.0),
        Device(2, "cloud", Some("cloud1"), 5006, 10000, 3, 20.0),
        Device(3, "cloud", Some("cloud2"), 10006, 40000, 3, 20.0),
        Device(4, "cloud", Some("cloud3"), 5006, 10000, 3, 20.0),
        Device(5, "actuator-device-1", None, 1006, 2000, 2, 40.0),
        Device(6, "actuator-device-2", None, 1006, 2000, 2, 40.0) ],
      [ Link(0, 2, 0.5, 8.0), Link(1, 3, 0.5, 8.0), Link(1, 4, 0.5, 8.0),
        Link(2, 3, 2.0, 1.0), Link(3, 2, 2.0, 1.0), Link(3, 1, 0.5, 8.0),
        Link(3, 5, 4.0, 0.5), Link(4, 6, 2.0, 1.0), Link(5, 3, 4.0, 0.5),
        Link(6, 4, 2.0, 1.0) ])
  }

  function Modules1(): seq<ModuleRec>
  {
    [ ModuleRec("Sensor1", TypeSource, None), ModuleRec("Sensor2", TypeSource, None),
      ModuleRec("Service1", TypeModule, Some(200)), ModuleRec("Service2", TypeModule, Some(100)),
      ModuleRec("Actuator1", TypeSink, None) ]
  }

  function Modules2(): seq<ModuleRec>
  {
    [ ModuleRec("Sensor1", TypeSource, None), ModuleRec("Service1", TypeModule, Some(100)),
      ModuleRec("Service2", TypeModule, Some(200)), ModuleRec("Actuator1", TypeSink, None),
      ModuleRec("Actuator2", TypeSink, None) ]
  }

  function Messages1(): seq<MessageRec>
  {
    [ MessageRec("m_s1", "Sensor1", "Service1", 100006, 5000, true, None),
      MessageRec("m_s2", "Sensor2", "Service2", 250006, 9500, true, None),
      MessageRec("m_ack_s2", "Service2", "Sensor2", 65006, 500, false, None),
      MessageRec("m_c1", "Service1", "Service2", 300006, 15000, false, None),
      MessageRec("m_ack_c2", "Service2", "Service2", 100006, 20000, false, None),
      MessageRec("m_ack_c1", "Service2", "Service1", 120006, 5000, false, None),
      MessageRec("m_c2", "Service1", "Service2", 250006, 65000, false, None),
      MessageRec("m_a3", "Service2", "Actuator1", 25006, 2000, false, None),
      MessageRec("m_a1", "Service2", "Actuator1", 100006, 4400, false, None),
      MessageRec("m_a2", "Service2", "Actuator1", 120006, 5600, false, None) ]
  }

  function Messages2(): seq<MessageRec>
  {
    [ MessageRec("m_s1", "Sensor1", "Service1", 350006, 16000, true, None),
      MessageRec("m_s2", "Sensor1", "Service2", 250006, 12200, true, None),
      MessageRec("m_a1", "Service1", "Actuator1", 30006, 3400, false, None),
      MessageRec("m_a2", "Service2", "Actuator2", 30006, 2100, false, None) ]
  }

  function Transmissions1(): map<string, seq<RuleRec>>
  {
    map[ "Service1" := [ RuleRec("m_s1", "m_c1", 1.0), RuleRec("m_ack_c1", "m_c2", 1.0) ],
         "Service2" := [ RuleRec("m_c1", "m_ack_c2", 0.1), RuleRec("m_ack_c2", "m_ack_c1", 1.0),
                         RuleRec("m_s2", "m_ack_s2", 1.0), RuleRec("m_c1", "m_a1", 1.0),
                         RuleRec("m_c2", "m_a3", 1.0), RuleRec("m_s2", "m_a2", 1.0) ] ]
  }

  function Transmissions2(): map<string, seq<RuleRec>>
  {
    map[ "Service1" := [ RuleRec("m_s1", "m_a1", 1.0) ],
         "Service2" := [ RuleRec("m_s2", "m_a2", 1.0) ] ]
  }

  /** `cloud_tags`: placement i uses the list `cloud_tags[i]` and scales both services to one replica. */
  function CloudTags(): seq<seq<string>>
  {
    [ ["cloud1", "cloud2"], ["cloud2", "cloud3"] ]
  }

  function Scale(): map<string, int>
  {
    map["Service1" := 1, "Service2" := 1]
  }

  /** The exclusive-or values Literals5Topology needs, as ground facts. */
  lemma XorValues5Topology()
    ensures Xor(500 * 10, 6) == 5006
    ensures Xor(1000 * 10, 6) == 10006
    ensures Xor(100 * 10, 6) == 1006
  {
    XorLowBits(5000, 6);
    XorLowBits(10000, 6);
    XorLowBits(1000, 6);
  }

  /** The exclusive-or values Literals5Messages0 needs, as ground facts. */
  lemma XorValues5Messages0()
    ensures Xor(10000 * 10, 6) == 100006
    ensures Xor(25000 * 10, 6) == 250006
  {
    XorLowBits(100000, 6);
    XorLowBits(250000, 6);
  }

  /** The exclusive-or values Literals5Messages1 needs, as ground facts. */
  lemma XorValues5Messages1()
    ensures Xor(6500 * 10, 6) == 65006
    ensures Xor(30000 * 10, 6) == 300006
  {
    XorLowBits(65000, 6);
    XorLowBits(300000, 6);
  }

  /** The exclusive-or values Literals5Messages2 needs, as ground facts. */
  lemma XorValues5Messages2()
    ensures Xor(12000 * 10, 6) == 120006
    ensures Xor(25000 * 10, 6) == 250006
    ensures Xor(2500 * 10, 6) == 25006
    ensures Xor(10000 * 10, 6) == 100006
  {
    XorLowBits(120000, 6);
    XorLowBits(250000, 6);
    XorLowBits(25000, 6);
    XorLowBits(100000, 6);
  }

  /** The exclusive-or values Literals5Messages3 needs, as ground facts. */
  lemma XorValues5Messages3()
    ensures Xor(35000 * 10, 6) == 350006
    ensures Xor(25000 * 10, 6) == 250006
    ensures Xor(3000 * 10, 6) == 30006
  {
    XorLowBits(350000, 6);
    XorLowBits(250000, 6);
    XorLowBits(30000, 6);
  }

  /**
   * The IPT and instruction literals as Python evaluates them: `m * 10 ^ 6`
   * is `(m * 10) ^ 6`, so e.g. `500 * 10 ^ 6` is 5006 and `10 * 10 ^ 6` is 98.
   */
  lemma Literals5Topology()
    ensures Topology5().entity[0].ipt == Xor(10 * 10, 6)
    ensures Topology5().entity[1].ipt == Xor(10 * 10, 6)
    ensures Topology5().entity[2].ipt == Xor(500 * 10, 6)
    ensures Topology5().entity[3].ipt == Xor(1000 * 10, 6)
    ensures Topology5().entity[4].ipt == Xor(500 * 10, 6)
    ensures Topology5().entity[5].ipt == Xor(100 * 10, 6)
    ensures Topology5().entity[6].ipt == Xor(100 * 10, 6)
  {
    var e := Topology5().entity;
    assert e[0].ipt == e[1].ipt == 98 && e[2].ipt == e[4].ipt == 5006;
    assert e[3].ipt == 10006 && e[5].ipt == e[6].ipt == 1006;
    XorHundredSix();
    XorValues5Topology();
  }

  lemma Literals5Messages0()
    ensures Messages1()[0].instructions == Xor(10000 * 10, 6)
    ensures Messages1()[1].instructions == Xor(25000 * 10, 6)
    ensures Messages1()[4].instructions == Xor(10000 * 10, 6)
  {
    var r := Messages1();
    assert r[0].instructions == r[4].instructions == 100006 && r[1].instructions == 250006;
    XorValues5Messages0();
  }

  lemma Literals5Messages1()
    ensures Messages1()[2].instructions == Xor(6500 * 10, 6)
    ensures Messages1()[3].instructions == Xor(30000 * 10, 6)
  {
    var r := Messages1();
    assert r[2].instructions == 65006 && r[3].instructions == 300006;
    XorValues5Messages1();
  }

  lemma Literals5Messages2()
    ensures Messages1()[5].instructions == Xor(12000 * 10, 6)
    ensures Messages1()[6].instructions == Xor(25000 * 10, 6)
    ensures Messages1()[7].instructions == Xor(2500 * 10, 6)
    ensures Messages1()[8].instructions == Xor(10000 * 10, 6)
    ensures Messages1()[9].instructions == Xor(12000 * 10, 6)
  {
    var r := Messages1();
    assert r[5].instructions == r[9].instructions == 120006 && r[6].instructions == 250006;
    assert r[7].instructions == 25006 && r[8].instructions == 100006;
    XorValues5Messages2();
  }

  lemma Literals5Messages3()
    ensures Messages2()[0].instructions == Xor(35000 * 10, 6)
    ensures Messages2()[1].instructions == Xor(25000 * 10, 6)
    ensures Messages2()[2].instructions == Xor(3000 * 10, 6)
    ensures Messages2()[3].instructions == Xor(3000 * 10, 6)
  {
    var r := Messages2();
    assert r[0].instructions == 350006 && r[1].instructions == 250006;
    assert r[2].instructions == r[3].instructions == 30006;
    XorValues5Messages3();
  }

  /** Ids are 0..6 in order, so distinct, and every link joins two declared devices. */
  lemma Topology5Links()
    ensures IdsArePositions(Topology5().entity) && UniqueIds(Topology5().entity)
    ensures LinksDeclared(Topology5())
  {
    var t := Topology5();
    PositionalIdsUnique(t.entity);
    forall l | l in t.link
      ensures Declared(t.entity, l.s) && Declared(t.entity, l.d)
    {
      PositionalDeclared(t.entity, l.s);
      PositionalDeclared(t.entity, l.d);
    }
  }

  /** cloud1, cloud2 and cloud3 each tag exactly one device: 2, 3 and 4. */
  lemma Topology5Tags()
    ensures FindIDs(Topology5().entity, "cloud1") == [2]
    ensures FindIDs(Topology5().entity, "cloud2") == [3]
    ensures FindIDs(Topology5().entity, "cloud3") == [4]
    ensures TagsOneDevice(Topology5().entity, "cloud1") && TagsOneDevice(Topology5().entity, "cloud2") &&
            TagsOneDevice(Topology5().entity, "cloud3")
  {
    var e := Topology5().entity;
    assert e[2].id == 2 && e[3].id == 3 && e[4].id == 4;
    FindIDsSingle(e, "cloud1", 2);
    FindIDsSingle(e, "cloud2", 3);
    FindIDsSingle(e, "cloud3", 4);
  }

  lemma Messages1ReferenceModules()
    ensures MessagesReferenceModules(Modules1(), Messages1())
  {
    var m, r := Modules1(), Messages1();
    forall i | 0 <= i < |r|
      ensures DeclaredModule(m, r[i].src) && DeclaredModule(m, r[i].dst)
    {
      assert m[0].name == "Sensor1" && m[1].name == "Sensor2" && m[2].name == "Service1" &&
             m[3].name == "Service2" && m[4].name == "Actuator1";
    }
  }

  /** Service1's rules consume messages 0 and 5 and produce messages 3 and 6. */
  lemma Rules1Service1Match()
    ensures forall k :: 0 <= k < |Transmissions1()["Service1"]| ==>
              RuleMatches(Messages1(), "Service1", Transmissions1()["Service1"][k])
  {
    var r, rules := Messages1(), Transmissions1()["Service1"];
    assert rules == [RuleRec("m_s1", "m_c1", 1.0), RuleRec("m_ack_c1", "m_c2", 1.0)];
    RulesMatchByPositions(r, "Service1", rules, [0, 5], [3, 6]);
  }

  /** Service2's six rules, each traced to the positions of its input and output messages. */
  lemma Rules1Service2Match()
    ensures forall k :: 0 <= k < |Transmissions1()["Service2"]| ==>
              RuleMatches(Messages1(), "Service2", Transmissions1()["Service2"][k])
  {
    var r, rules := Messages1(), Transmissions1()["Service2"];
    assert rules == [ RuleRec("m_c1", "m_ack_c2", 0.1), RuleRec("m_ack_c2", "m_ack_c1", 1.0),
                      RuleRec("m_s2", "m_ack_s2", 1.0), RuleRec("m_c1", "m_a1", 1.0),
                      RuleRec("m_c2", "m_a3", 1.0), RuleRec("m_s2", "m_a2", 1.0) ];
    RulesMatchByPositions(r, "Service2", rules, [3, 4, 1, 3, 6, 1], [4, 5, 2, 8, 7, 9]);
  }

  lemma Rules1MatchService()
    ensures RulesMatchService(Messages1(), Transmissions1())
  {
    var r, t := Messages1(), Transmissions1();
    Rules1Service1Match();
    Rules1Service2Match();
    forall service: string, k: int | service in t && 0 <= k < |t[service]|
      ensures RuleMatches(r, service, t[service][k])
    {
      assert service == "Service1" || service == "Service2";
    }
  }

  lemma Names1Unique()
    ensures UniqueModuleNames(Modules1()) && UniqueRecordNames(Messages1())
  {
  }

  /**
   * app_1 is well formed: unique module and message names, every message
   * between declared modules, every rule consuming a message addressed to
   * its service and producing one from it, thresholds in [0, 1].
   */
  lemma Application1WellFormed()
    ensures WellFormedApp(Modules1(), Messages1(), Transmissions1())
  {
    Names1Unique();
    Messages1ReferenceModules();
    Rules1MatchService();
    Thresholds1InRange();
  }

  lemma Thresholds1InRange()
    ensures ThresholdsInRange(Transmissions1())
  {
    var t: map<string, seq<RuleRec>> := Transmissions1();
    forall service: string, k: int | service in t && 0 <= k < |t[service]|
      ensures 0.0 <= t[service][k].threshold <= 1.0
    {
      assert service == "Service1" || service == "Service2";
    }
  }

  lemma Messages2ReferenceModules()
    ensures MessagesReferenceModules(Modules2(), Messages2())
  {
    var m, r := Modules2(), Messages2();
    forall i | 0 <= i < |r|
      ensures DeclaredModule(m, r[i].src) && DeclaredModule(m, r[i].dst)
    {
      assert m[0].name == "Sensor1" && m[1].name == "Service1" && m[2].name == "Service2" &&
             m[3].name == "Actuator1" && m[4].name == "Actuator2";
    }
  }

  lemma Rules2MatchService()
    ensures RulesMatchService(Messages2(), Transmissions2())
  {
    var r, t := Messages2(), Transmissions2();
    RulesMatchByPositions(r, "Service1", t["Service1"], [0], [2]);
    RulesMatchByPositions(r, "Service2", t["Service2"], [1], [3]);
    forall service: string, k: int | service in t && 0 <= k < |t[service]|
      ensures RuleMatches(r, service, t[service][k])
    {
      assert service == "Service1" || service == "Service2";
    }
  }

  /** app_2 is well formed in the same sense. */
  lemma Application2WellFormed()
    ensures WellFormedApp(Modules2(), Messages2(), Transmissions2())
  {
    Names2Unique();
    Messages2ReferenceModules();
    Rules2MatchService();
    Thresholds2InRange();
  }

  lemma Names2Unique()
    ensures UniqueModuleNames(Modules2()) && UniqueRecordNames(Messages2())
  {
  }

  lemma Thresholds2InRange()
    ensures ThresholdsInRange(Transmissions2())
  {
    var t: map<string, seq<RuleRec>> := Transmissions2();
    forall service: string, k: int | service in t && 0 <= k < |t[service]|
      ensures 0.0 <= t[service][k].threshold <= 1.0
    {
      assert service == "Service1" || service == "Service2";
    }
  }

  /** Two distinct scaled services, one replica each, both tags present: one deploy per service, in order. */
  lemma PlaceTwo(a: string, b: string, tags: seq<string>, topo: seq<Device>)
    requires |tags| >= 2 && a in Scale() && b in Scale()
    ensures Allocate(Reversed([b, a]), TagList(tags), Scale(), topo) ==
            Allocation([Deploy(a, FindIDs(topo, tags[0])), Deploy(b, FindIDs(topo, tags[1]))], None)
  {
    assert Reversed([b, a]) == [a, b];
    assert [a, b][..1] == [a];
    assert [a][..0] == [];
    assert Allocate([], TagList(tags), Scale(), topo) == Allocation([], None);
    assert Allocate([a], TagList(tags), Scale(), topo) == Allocation([Deploy(a, FindIDs(topo, tags[0]))], None);
    assert Replicas(a, FindIDs(topo, tags[0]), 1) == [Deploy(a, FindIDs(topo, tags[0]))];
    assert Replicas(b, FindIDs(topo, tags[1]), 1) == [Deploy(b, FindIDs(topo, tags[1]))];
  }

  /**
   * With either order of the application's service keys, each placement
   * deploys every service once, onto the single device carrying the tag at
   * its position in the reversed key list.
   */
  lemma Placements5()
    ensures Allocate(Reversed(["Service1", "Service2"]), TagList(CloudTags()[0]), Scale(), Topology5().entity) ==
            Allocation([Deploy("Service2", [2]), Deploy("Service1", [3])], None)
    ensures Allocate(Reversed(["Service2", "Service1"]), TagList(CloudTags()[0]), Scale(), Topology5().entity) ==
            Allocation([Deploy("Service1", [2]), Deploy("Service2", [3])], None)
    ensures Allocate(Reversed(["Service1", "Service2"]), TagList(CloudTags()[1]), Scale(), Topology5().entity) ==
            Allocation([Deploy("Service2", [3]), Deploy("Service1", [4])], None)
    ensures Allocate(Reversed(["Service2", "Service1"]), TagList(CloudTags()[1]), Scale(), Topology5().entity) ==
            Allocation([Deploy("Service1", [3]), Deploy("Service2", [4])], None)
  {
    Topology5Tags();
    var e := Topology5().entity;
    assert CloudTags()[0] == ["cloud1", "cloud2"] && CloudTags()[1] == ["cloud2", "cloud3"];
    PlaceTwo("Service2", "Service1", CloudTags()[0], e);
    PlaceTwo("Service1", "Service2", CloudTags()[0], e);
    PlaceTwo("Service2", "Service1", CloudTags()[1], e);
    PlaceTwo("Service1", "Service2", CloudTags()[1], e);
  }
  /**
   * Both applications are assembled without a KeyError: the call log is
   * `set_modules`, then the two `pop` messages, then the rule registrations.
   */
  lemma Applications5Assemble()
    ensures DictAssembly.CreateApplicationSpec(Modules1(), Messages1(), Transmissions1()).Ok?
    ensures DictAssembly.CreateApplicationSpec(Modules2(), Messages2(), Transmissions2()).Ok?
  {
    Rules1MatchService();
    Rules2MatchService();
    DictAssembly.MatchedRulesResolve(Modules1(), Messages1(), Transmissions1());
    DictAssembly.MatchedRulesResolve(Modules2(), Messages2(), Transmissions2());
  }
}
