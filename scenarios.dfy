/**
 * Client programs that drive the measures through the host's calls and the
 * network's events, and state what the contracts above let a caller conclude.
 */
module Scenarios {
  import opened MqttTypes
  import opened Tables
  import opened Parents
  import opened Children
  import opened Plugin

  const NoOptions: Options := Options(map[], map[])

  /** Options of a child measure bound to `parentName` with the given topic and QoS. */
  function ChildOptions(parentName: string, topic: string, q: int): Options {
    Options(map["ParentName" := parentName, "Topic" := topic], map["Qos" := q])
  }

  /**
   * The host creating a child measure of the only registered parent `p` and
   * reloading it with topic `t` and QoS `q`.
   */
  method BindChild(reg: Registry, p: ParentMeasure, skin: SkinId, t: string, q: Byte) returns (c: ChildMeasure)
    requires reg.Valid() && reg.parents == [p] && Matches(p, skin, "mParent")
    modifies p
    ensures reg.Valid() && c.parent == p && c.topic == t
    ensures SubscribeStep(old(p.qos), old(p.wire), p.connected, t, q, p.qos, p.wire)
    ensures p.connected == old(p.connected) && p.topics == old(p.topics)
  {
    var opts := ChildOptions("mParent", t, q as int);
    assert ReadString(opts, "ParentName", "") == "mParent" && ReadString(opts, "Topic", DefaultTopic) == t;
    assert ByteOf(ReadInt(opts, "Qos", 0)) == q;
    c := new ChildMeasure();
    c.Reload(reg, opts, skin);
  }

  /** An illegal port falls back to 1883 with a warning, and a connection is attempted. */
  method PortFallback(reg: Registry, connectOk: bool) returns (p: ParentMeasure)
    requires reg.Valid()
    modifies reg
    ensures reg.Valid() && reg.parents == old(reg.parents) + [p]
    ensures p.server == "broker.example" && p.port == 1883 && p.portWarning
    ensures p.wire == [ConnectCall]
  {
    var opts := Options(map["Server" := "broker.example"], map["Port" := 0]);
    p := new ParentMeasure(reg, opts, "mParent", 1, "generated-id", connectOk);
  }

  /**
   * A child bound to a connected parent reads back what the parent received
   * on the child's topic; a child whose topic never arrived reads null.
   */
  method ChildReadsCache(skin: SkinId) returns (seen: Option<string>, missing: Option<string>)
    ensures seen == Some("42")
    ensures missing == None
  {
    var reg := new Registry();
    var p := new ParentMeasure(reg, NoOptions, "mParent", skin, "generated-id", true);
    var c1 := BindChild(reg, p, skin, "T", 0);
    var c2 := BindChild(reg, p, skin, "U", 0);
    p.Receive("T", "42");
    seen := c1.GetString();
    missing := c2.GetString();
  }

  /**
   * Two children add distinct topics `ta` (QoS 1) and `tb` (QoS 2) to one
   * connected parent: the table ends as {ta: 1, tb: 2}, and each addition
   * sent one subscribe call, the first carrying {ta: 1}, the second the whole table.
   */
  method TwoChildrenSubscribe(skin: SkinId, ta: string, tb: string) returns (table: QosTable, ghost wire: seq<Call>)
    requires ta != tb
    ensures table == map[ta := 1, tb := 2]
    ensures |wire| == 3 && wire[0] == ConnectCall
    ensures wire[1].SubscribeCall? && Carries(wire[1].topics, wire[1].levels, map[ta := 1])
    ensures wire[2].SubscribeCall? && Carries(wire[2].topics, wire[2].levels, table)
  {
    var reg := new Registry();
    var p := new ParentMeasure(reg, NoOptions, "mParent", skin, "generated-id", true);
    var a := BindChild(reg, p, skin, ta, 1);
    ghost var w1 := p.wire;
    assert w1[..1] == [ConnectCall];
    assert w1[0] == ConnectCall;
    assert Carries(w1[1].topics, w1[1].levels, map[ta := 1]);
    var b := BindChild(reg, p, skin, tb, 2);
    assert p.wire[..2] == w1;
    assert p.wire[0] == w1[0] && p.wire[1] == w1[1];
    table := p.qos;
    wire := p.wire;
  }

  /** A child whose parent name matches nothing stays inert: "" as its string, no publish. */
  method UnresolvedChild(reg: Registry, skin: SkinId, args: string) returns (s: Option<string>)
    requires reg.Valid()
    requires forall j :: 0 <= j < |reg.parents| ==> !Matches(reg.parents[j], skin, "nobody")
    modifies reg.parents
    ensures reg.Valid() && s == Some("")
    ensures forall j :: 0 <= j < |reg.parents| ==> Untouched(reg.parents[j])
  {
    var c := new ChildMeasure();
    c.Reload(reg, ChildOptions("nobody", "T", 0), skin);
    c.ExecuteBang(args);
    s := c.GetString();
  }

  /** The Publish section variable with three arguments publishes the placeholder pair. */
  method WrongArgumentCount(skin: SkinId) returns (ghost wire: seq<Call>)
    ensures wire == [ConnectCall, PublishCall(Publication("atopic", "avalue", 0, false))]
  {
    var reg := new Registry();
    var m := Plugin.Initialize(reg, NoOptions, "mParent", skin, "generated-id", true);
    Plugin.Publish(m, ["t", "v", "extra"]);
    wire := m.p.wire;
  }

  /** Publishing while disconnected sends nothing and leaves the cache alone. */
  method PublishWhileDisconnected(skin: SkinId) returns (cache: Cache, ghost wire: seq<Call>)
    ensures cache == map["t" := "old"]
    ensures wire == [ConnectCall]
  {
    var reg := new Registry();
    var p := new ParentMeasure(reg, NoOptions, "mParent", skin, "generated-id", true);
    p.Receive("t", "old");
    p.ConnectionClosed();
    p.Publish("t", "new", 0, false);
    cache := p.topics;
    wire := p.wire;
  }

  /**
   * After a lost connection the next tick reconnects, but the subscriptions
   * made before are not sent again: the last call on the wire is the connect.
   */
  method NoReplayAfterReconnect(skin: SkinId) returns (table: QosTable, ghost wire: seq<Call>)
    ensures table == map["a" := 0]
    ensures |wire| == 3 && wire[1].SubscribeCall? && wire[2] == ConnectCall
  {
    var reg := new Registry();
    var p := new ParentMeasure(reg, NoOptions, "mParent", skin, "generated-id", true);
    var c := BindChild(reg, p, skin, "a", 0);
    p.ConnectionClosed();
    var _ := p.Update(true);
    table := p.qos;
    wire := p.wire;
  }

  /** Creating a parent and disposing of it leaves the registry as it was. */
  method CreateThenDispose(reg: Registry, opts: Options, skin: SkinId, connectOk: bool)
    requires reg.Valid()
    modifies reg
    ensures reg.Valid() && reg.parents == old(reg.parents)
  {
    var p := new ParentMeasure(reg, opts, "mParent", skin, "generated-id", connectOk);
    RemoveAppended(old(reg.parents), p);
    p.Dispose();
  }
}
