/**
 * The child measure: a topic and a reference to the parent it resolved at
 * its last reload. It holds no connection of its own and delegates every
 * operation to that parent, staying inert when none was found.
 */
module Children {
  import opened MqttTypes
  import opened Tables
  import opened Parents

  /** A parent none of whose state has changed since the start of the call. */
  twostate predicate Untouched(p: ParentMeasure)
    reads p
  {
    && old(p.Valid())
    && p.connected == old(p.connected) && p.topics == old(p.topics)
    && p.qos == old(p.qos) && p.wire == old(p.wire)
  }

  /** What one step of a child's reload leaves behind at a registry entry. */
  twostate predicate Visited(p: ParentMeasure, skin: SkinId, name: string, t: string, q: Byte)
    reads p
  {
    if Matches(p, skin, name) then
      && p.Valid()
      && SubscribeStep(old(p.qos), old(p.wire), p.connected, t, q, p.qos, p.wire)
      && p.connected == old(p.connected) && p.topics == old(p.topics)
    else Untouched(p)
  }

  /**
   * The registry walk of a child's reload: every parent matching the skin and
   * name gets `Subscribe(topic, q)`, and the last one visited is returned.
   */
  method SubscribeMatching(ps: seq<ParentMeasure>, skinId: SkinId, parentName: string, topic: string, q: Byte)
    returns (last: ParentMeasure?)
    requires Distinct(ps) && forall j :: 0 <= j < |ps| ==> ps[j].Valid()
    modifies ps
    ensures last == LastMatch(ps, skinId, parentName)
    ensures forall j :: 0 <= j < |ps| ==> Visited(ps[j], skinId, parentName, topic, q)
  {
    last := null;
    var i := 0;
    while i < |ps|
      invariant 0 <= i <= |ps|
      invariant last == LastMatch(ps[..i], skinId, parentName)
      invariant forall j :: 0 <= j < i ==> Visited(ps[j], skinId, parentName, topic, q)
      invariant forall j :: i <= j < |ps| ==> Untouched(ps[j])
    {
      var p := ps[i];
      assert ps[..i + 1][..i] == ps[..i];
      if p.skin == skinId && p.name == parentName {
        last := p;
        p.Subscribe(topic, q);
      }
      i := i + 1;
    }
    assert ps[..i] == ps;
  }

  class ChildMeasure {
    /** The parent resolved at the last reload; null when none matched. */
    var parent: ParentMeasure?
    /** The child's topic; empty until the first reload reads it. */
    var topic: string

    constructor ()
      ensures parent == null && topic == ""
    {
      parent := null;
      topic := "";
    }

    /**
     * Reads Topic, Qos and ParentName, forgets the old parent, and walks the
     * registry: every parent with the same skin and name gets the child's
     * subscription, and the last of them becomes the child's parent.
     */
    method Reload(reg: Registry, opts: Options, skinId: SkinId)
      requires reg.Valid()
      modifies this, reg.parents
      ensures reg.Valid()
      ensures topic == ReadString(opts, "Topic", DefaultTopic)
      ensures parent == LastMatch(reg.parents, skinId, ReadString(opts, "ParentName", ""))
      ensures parent != null ==> parent in reg.parents && topic in parent.qos
      ensures forall j :: 0 <= j < |reg.parents| ==>
                Visited(reg.parents[j], skinId, ReadString(opts, "ParentName", ""), topic, ByteOf(ReadInt(opts, "Qos", 0)))
    {
      topic := ReadString(opts, "Topic", DefaultTopic);
      var q := ReadInt(opts, "Qos", 0);
      var parentName := ReadString(opts, "ParentName", "");
      parent := null;
      parent := SubscribeMatching(reg.parents, skinId, parentName, topic, ByteOf(q));
      if parent != null {
        ghost var k :| 0 <= k < |reg.parents| && reg.parents[k] == parent && Matches(parent, skinId, parentName);
      }
    }

    /** A bang on a child publishes its argument to the child's topic through the parent. */
    method ExecuteBang(args: string)
      requires parent != null ==> parent.Valid()
      modifies parent
      ensures parent != null ==>
                && parent.Valid()
                && parent.wire == (if parent.connected then old(parent.wire) + [PublishCall(Publication(topic, args, 0, false))]
                                   else old(parent.wire))
                && parent.connected == old(parent.connected) && parent.topics == old(parent.topics) && parent.qos == old(parent.qos)
    {
      if parent != null {
        parent.Publish(topic, args, 0, false);
      }
    }

    /** An explicit publish goes to the parent unchanged, or nowhere without one. */
    method Publish(t: string, value: string, q: Byte, retain: bool)
      requires parent != null ==> parent.Valid()
      modifies parent
      ensures parent != null ==>
                && parent.Valid()
                && parent.wire == (if parent.connected then old(parent.wire) + [PublishCall(Publication(t, value, q, retain))]
                                   else old(parent.wire))
                && parent.connected == old(parent.connected) && parent.topics == old(parent.topics) && parent.qos == old(parent.qos)
    {
      if parent != null {
        parent.Publish(t, value, q, retain);
      }
    }

    /** The numeric value: the parent's, or 0 without a parent. */
    function Update(): (r: real)
      reads this
      ensures r == 0.0
    {
      if parent != null then parent.GetValue() else 0.0
    }

    /**
     * The string value: the parent's cached payload of the child's topic
     * (null when the parent is disconnected or has none), or the empty
     * string when no parent was resolved.
     */
    function GetString(): (r: Option<string>)
      reads this, parent
      ensures parent == null ==> r == Some("")
      ensures parent != null ==> (r.Some? <==> parent.connected && topic in parent.topics)
      ensures parent != null && r.Some? ==> r.value == parent.topics[topic]
    {
      if parent != null then parent.GetString(topic) else Some("")
    }
  }
}
