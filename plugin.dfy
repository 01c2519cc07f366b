/**
 * The plugin's entry points as the host calls them. A measure is a parent or
 * a child, decided once at initialization by whether it names a parent; every
 * later entry point dispatches on that choice.
 */
module Plugin {
  import opened MqttTypes
  import opened Tables
  import opened Parents
  import opened Children

  datatype Measure = Parent(p: ParentMeasure) | Child(c: ChildMeasure)

  /** The parent that carries out a measure's transport work, if any. */
  function Owner(m: Measure): (r: ParentMeasure?)
    reads if m.Child? then {m.c} else {}
    ensures m.Parent? ==> r == m.p
    ensures m.Child? ==> r == m.c.parent
  {
    match m
    case Parent(p) => p
    case Child(c) => c.parent
  }

  /** The topic a bang on this measure publishes to. */
  function BangTopic(m: Measure): string
    reads if m.Child? then {m.c} else {}
  {
    match m
    case Parent(p) => p.topic
    case Child(c) => c.topic
  }

  /** The parent's invariant holds for whichever parent serves the measure. */
  ghost predicate Ready(m: Measure)
    reads if m.Child? then {m.c} else {}, Owner(m)
  {
    Owner(m) != null ==> Owner(m).Valid()
  }

  /**
   * Creates the measure: a parent (registered, configured, first connection
   * attempted with outcome `connectOk`) exactly when ParentName is empty,
   * otherwise a child that has not resolved a parent yet.
   */
  method Initialize(reg: Registry, opts: Options, measureName: string, skinId: SkinId,
                    generatedId: string, connectOk: bool) returns (m: Measure)
    requires reg.Valid()
    modifies reg
    ensures reg.Valid() && Ready(m)
    ensures m.Parent? <==> ReadString(opts, "ParentName", "") == ""
    ensures m.Parent? ==>
              && fresh(m.p) && reg.parents == old(reg.parents) + [m.p]
              && m.p.name == measureName && m.p.skin == skinId && m.p.registry == reg
              && m.p.topic == ReadString(opts, "Topic", DefaultTopic)
              && m.p.server == ReadString(opts, "Server", "")
              && m.p.port == EffectivePort(ReadInt(opts, "Port", DefaultPort as int))
              && m.p.portWarning == !ValidPort(ReadInt(opts, "Port", DefaultPort as int))
              && m.p.clientId == ReadString(opts, "ClientId", generatedId)
              && m.p.username == ReadString(opts, "Username", "") && m.p.password == ReadString(opts, "Password", "")
              && m.p.connected == connectOk && m.p.wire == [ConnectCall]
              && m.p.topics == map[] && m.p.qos == map[]
    ensures m.Child? ==> fresh(m.c) && m.c.parent == null && reg.parents == old(reg.parents)
  {
    var parentName := ReadString(opts, "ParentName", "");
    if parentName == "" {
      var p := new ParentMeasure(reg, opts, measureName, skinId, generatedId, connectOk);
      m := Parent(p);
    } else {
      var c := new ChildMeasure();
      m := Child(c);
    }
  }

  /** Tears the measure down: a parent disconnects and leaves the registry; a child does nothing. */
  method Finalize(m: Measure)
    requires m.Parent? ==> m.p.Valid() && m.p.registry.Valid()
    modifies if m.Parent? then {m.p} else {}, if m.Parent? then {m.p.registry} else {}
    ensures m.Parent? ==>
              && m.p.registry.Valid()
              && m.p.registry.parents == RemoveFirst(old(m.p.registry.parents), m.p)
              && m.p !in m.p.registry.parents
              && !m.p.connected
              && m.p.wire == (if old(m.p.connected) then old(m.p.wire) + [DisconnectCall] else old(m.p.wire))
  {
    match m
    case Parent(p) => p.Dispose();
    case Child(_) =>
  }

  /** Re-reads the options: a parent keeps its state; a child resolves its parent again. */
  method Reload(m: Measure, reg: Registry, opts: Options, skinId: SkinId)
    requires reg.Valid()
    modifies if m.Child? then {m.c} else {}, if m.Child? then reg.parents else []
    ensures reg.Valid()
    ensures m.Child? ==>
              && m.c.topic == ReadString(opts, "Topic", DefaultTopic)
              && m.c.parent == LastMatch(reg.parents, skinId, ReadString(opts, "ParentName", ""))
              && (m.c.parent != null ==> m.c.parent in reg.parents && m.c.topic in m.c.parent.qos)
              && forall j :: 0 <= j < |reg.parents| ==>
                   Visited(reg.parents[j], skinId, ReadString(opts, "ParentName", ""), m.c.topic,
                           ByteOf(ReadInt(opts, "Qos", 0)))
  {
    match m
    case Parent(_) =>
    case Child(c) => c.Reload(reg, opts, skinId);
  }

  /** The poll tick: 0 for every measure; a disconnected parent tries to reconnect first. */
  method Update(m: Measure, reconnectOk: bool) returns (r: real)
    requires Ready(m)
    modifies if m.Parent? then {m.p} else {}
    ensures r == 0.0
    ensures m.Parent? ==>
              && m.p.Valid() && m.p.topics == old(m.p.topics) && m.p.qos == old(m.p.qos)
              && (old(m.p.connected) ==> m.p.connected && m.p.wire == old(m.p.wire))
              && (!old(m.p.connected) ==> m.p.connected == reconnectOk && m.p.wire == old(m.p.wire) + [ConnectCall])
  {
    match m
    case Parent(p) => r := p.Update(reconnectOk);
    case Child(c) => r := c.Update();
  }

  /**
   * The measure's string value, None standing for the null pointer: always the
   * empty string for a parent; for a child, what its parent has cached for
   * the child's topic.
   */
  function GetString(m: Measure): (r: Option<string>)
    reads if m.Child? then {m.c} else {}, Owner(m)
    ensures m.Parent? ==> r == Some("")
    ensures m.Child? && m.c.parent == null ==> r == Some("")
    ensures m.Child? && m.c.parent != null ==>
              && (r.Some? <==> m.c.parent.connected && m.c.topic in m.c.parent.topics)
              && (r.Some? ==> r.value == m.c.parent.topics[m.c.topic])
  {
    match m
    case Parent(_) => Some("")
    case Child(c) => c.GetString()
  }

  /** A bang publishes its text to the measure's topic at QoS 0 without retain. */
  method ExecuteBang(m: Measure, args: string)
    requires Ready(m)
    modifies Owner(m)
    ensures Owner(m) == old(Owner(m)) && Ready(m)
    ensures Owner(m) != null ==>
              var o := Owner(m);
              && o.wire == (if o.connected then old(o.wire) + [PublishCall(Publication(BangTopic(m), args, 0, false))]
                            else old(o.wire))
              && o.connected == old(o.connected) && o.topics == old(o.topics) && o.qos == old(o.qos)
  {
    match m
    case Parent(p) => p.ExecuteBang(args);
    case Child(c) => c.ExecuteBang(args);
  }

  /**
   * The Publish section variable: publishes its two arguments, or the
   * placeholder pair when the argument count is not two, at QoS 0 without retain.
   */
  method Publish(m: Measure, argv: seq<string>)
    requires Ready(m)
    modifies Owner(m)
    ensures Owner(m) == old(Owner(m)) && Ready(m)
    ensures Owner(m) != null ==>
              var o := Owner(m);
              var pub := Publication(PublishArgs(argv).0, PublishArgs(argv).1, 0, false);
              && o.wire == (if o.connected then old(o.wire) + [PublishCall(pub)] else old(o.wire))
              && o.connected == old(o.connected) && o.topics == old(o.topics) && o.qos == old(o.qos)
  {
    var (t, v) := PublishArgs(argv);
    match m
    case Parent(p) => p.Publish(t, v, 0, false);
    case Child(c) => c.Publish(t, v, 0, false);
  }
}
