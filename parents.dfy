/**
 * The parent measure: the one object that owns a broker connection, the
 * subscription table its children contribute to, and the cache of the last
 * payload per topic; and the process-wide registry children resolve it in.
 *
 * The MQTT transport is abstract: `connected` stands for the client's
 * IsConnected, and the ghost `wire` log records, in order, every call made
 * into the transport (connect, subscribe, publish, disconnect).
 */
module Parents {
  import opened MqttTypes
  import opened Tables

  /** The position of the first occurrence of `x` in `s`. */
  function FirstIndex<T(==)>(s: seq<T>, x: T): (i: nat)
    requires x in s
    ensures i < |s| && s[i] == x && x !in s[..i]
  {
    if s[0] == x then 0
    else
      var i := 1 + FirstIndex(s[1..], x);
      assert s[..i] == [s[0]] + s[1..][..i - 1];
      i
  }

  /** `List.Remove`: drops the first occurrence of `x`, if there is one. */
  function RemoveFirst<T(==)>(s: seq<T>, x: T): (r: seq<T>)
    ensures x !in s ==> r == s
    ensures x in s ==> |r| == |s| - 1 && multiset(r) == multiset(s) - multiset{x}
    ensures forall y :: y in r ==> y in s
  {
    if s == [] then []
    else
      assert s == [s[0]] + s[1..];
      if s[0] == x then s[1..] else [s[0]] + RemoveFirst(s[1..], x)
  }

  /** Only the first occurrence goes: the entries before and after it keep their order. */
  lemma {:induction false} RemoveFirstSplices<T>(s: seq<T>, x: T)
    requires x in s
    ensures RemoveFirst(s, x) == s[..FirstIndex(s, x)] + s[FirstIndex(s, x) + 1..]
  {
    assert s == [s[0]] + s[1..];
    if s[0] != x {
      RemoveFirstSplices(s[1..], x);
      var i := FirstIndex(s[1..], x);
      assert s[..i + 1] == [s[0]] + s[1..][..i];
      assert s[i + 2..] == s[1..][i + 1..];
    }
  }

  /**
   * In a list without duplicates, removing an element removes it entirely,
   * keeps every other element and keeps the list free of duplicates.
   */
  lemma {:induction false} RemoveFirstDistinct<T>(s: seq<T>, x: T)
    requires Distinct(s)
    ensures Distinct(RemoveFirst(s, x)) && x !in RemoveFirst(s, x)
    ensures forall y :: y in s && y != x ==> y in RemoveFirst(s, x)
  {
    if s != [] {
      assert s == [s[0]] + s[1..];
      assert Distinct(s[1..]) by {
        forall i, j | 0 <= i < j < |s[1..]| ensures s[1..][i] != s[1..][j] {
          assert s[1..][i] == s[i + 1] && s[1..][j] == s[j + 1];
        }
      }
      assert s[0] !in s[1..] by {
        forall i | 0 <= i < |s[1..]| ensures s[1..][i] != s[0] {
          assert s[1..][i] == s[i + 1];
        }
      }
      if s[0] != x {
        RemoveFirstDistinct(s[1..], x);
        var r := RemoveFirst(s[1..], x);
        assert RemoveFirst(s, x) == [s[0]] + r;
        assert s[0] !in r;
        forall i, j | 0 <= i < j < |[s[0]] + r| ensures ([s[0]] + r)[i] != ([s[0]] + r)[j] {
          if i > 0 {
            assert ([s[0]] + r)[i] == r[i - 1] && ([s[0]] + r)[j] == r[j - 1];
          } else {
            assert ([s[0]] + r)[j] == r[j - 1];
          }
        }
      }
    }
  }

  /** Removing what was just appended to a list that lacked it restores the list. */
  lemma {:induction false} RemoveAppended<T>(s: seq<T>, x: T)
    requires x !in s
    ensures RemoveFirst(s + [x], x) == s
  {
    if s != [] {
      assert (s + [x])[0] == s[0] && (s + [x])[1..] == s[1..] + [x];
      RemoveAppended(s[1..], x);
      assert [s[0]] + s[1..] == s;
    }
  }

  /** A parent is matched by name and skin: the same name in another skin is another parent. */
  predicate Matches(p: ParentMeasure, skin: SkinId, name: string) {
    p.skin == skin && p.name == name
  }

  /** The parent a child resolves: the last registry entry that matches. */
  function LastMatch(ps: seq<ParentMeasure>, skin: SkinId, name: string): (r: ParentMeasure?)
    ensures r == null <==> forall i :: 0 <= i < |ps| ==> !Matches(ps[i], skin, name)
    ensures r != null ==> exists i :: 0 <= i < |ps| && ps[i] == r && Matches(r, skin, name)
                                        && forall j :: i < j < |ps| ==> !Matches(ps[j], skin, name)
  {
    if ps == [] then null
    else if Matches(ps[|ps| - 1], skin, name) then ps[|ps| - 1]
    else LastMatch(ps[..|ps| - 1], skin, name)
  }

  /**
   * A subscribe call in the wire log is consistent with `table`: parallel
   * arrays, no topic twice, and every pair it carried is still in the table
   * with the same QoS.
   */
  ghost predicate SentFrom(c: Call, table: QosTable) {
    c.SubscribeCall? ==>
      |c.topics| == |c.levels| && Distinct(c.topics) && SubTable(TableOf(c.topics, c.levels), table)
  }

  /**
   * The effect of one `Subscribe(t, q)` on a parent whose table was `qos0`
   * and whose wire log was `wire0`: the topic is added if absent, and exactly
   * when connected one subscribe call carrying the whole new table is sent.
   */
  ghost predicate SubscribeStep(qos0: QosTable, wire0: seq<Call>, connected: bool, t: string, q: Byte,
                                qos1: QosTable, wire1: seq<Call>)
  {
    && qos1 == AddSubscription(qos0, t, q)
    && if connected then
         && |wire1| == |wire0| + 1 && wire1[..|wire0|] == wire0
         && wire1[|wire0|].SubscribeCall?
         && Carries(wire1[|wire0|].topics, wire1[|wire0|].levels, qos1)
       else wire1 == wire0
  }

  /** The process-wide list of live parent measures. */
  class Registry {
    var parents: seq<ParentMeasure>

    ghost predicate Valid()
      reads this, parents
    {
      && Distinct(parents)
      && forall p :: p in parents ==> p.Valid()
    }

    constructor ()
      ensures Valid() && parents == []
    {
      parents := [];
    }
  }

  class ParentMeasure {
    const registry: Registry
    const name: string
    const skin: SkinId
    const server: string
    const port: UShort
    const username: string
    const password: string
    const clientId: string
    /** The default publish topic. */
    const topic: string
    /** Whether the configured port was rejected (a warning is logged then). */
    ghost const portWarning: bool

    var connected: bool
    /** Topic cache: the last payload received per topic. */
    var topics: Cache
    /** Subscription table: the QoS each topic was first subscribed with. */
    var qos: QosTable
    ghost var wire: seq<Call>

    /** No subscription the client ever sent has since been dropped or changed. */
    ghost predicate Valid()
      reads this
    {
      forall k :: 0 <= k < |wire| ==> SentFrom(wire[k], qos)
    }

    /**
     * Registers the new parent, reads its options, and makes the first
     * connection attempt, whose outcome is `connectOk`. `generatedId` stands
     * for the fresh GUID used when no ClientId is configured.
     */
    constructor (reg: Registry, opts: Options, measureName: string, skinId: SkinId,
                 generatedId: string, connectOk: bool)
      requires reg.Valid()
      modifies reg
      ensures reg.Valid() && reg.parents == old(reg.parents) + [this]
      ensures registry == reg && name == measureName && skin == skinId
      ensures topic == ReadString(opts, "Topic", DefaultTopic)
      ensures server == ReadString(opts, "Server", "")
      ensures port == EffectivePort(ReadInt(opts, "Port", DefaultPort as int))
      ensures portWarning == !ValidPort(ReadInt(opts, "Port", DefaultPort as int))
      ensures clientId == ReadString(opts, "ClientId", generatedId)
      ensures username == ReadString(opts, "Username", "") && password == ReadString(opts, "Password", "")
      ensures topics == map[] && qos == map[]
      ensures connected == connectOk && wire == [ConnectCall]
      ensures Valid()
    {
      registry := reg;
      topic := ReadString(opts, "Topic", DefaultTopic);
      name := measureName;
      skin := skinId;
      server := ReadString(opts, "Server", "");
      var configured := ReadInt(opts, "Port", DefaultPort as int);
      clientId := ReadString(opts, "ClientId", generatedId);
      username := ReadString(opts, "Username", "");
      password := ReadString(opts, "Password", "");
      if configured <= 0 || configured > 65535 {
        port := DefaultPort;
        portWarning := true;
      } else {
        port := configured as UShort;
        portWarning := false;
      }
      topics := map[];
      qos := map[];
      connected := connectOk;
      wire := [ConnectCall];
      new;
      reg.parents := reg.parents + [this];
    }

    /** The network event "message received": last write wins in the cache. */
    method Receive(t: string, msg: string)
      requires Valid()
      modifies this
      ensures Valid()
      ensures topics == Store(old(topics), t, msg)
      ensures connected == old(connected) && qos == old(qos) && wire == old(wire)
    {
      topics := topics[t := msg];
    }

    /** The network event "connection closed": only the flag changes, nothing reconnects. */
    method ConnectionClosed()
      requires Valid()
      modifies this
      ensures Valid()
      ensures !connected
      ensures topics == old(topics) && qos == old(qos) && wire == old(wire)
    {
      connected := false;
    }

    /** One connection attempt with the stored parameters; its outcome is `connectOk`. */
    method Reconnect(connectOk: bool)
      requires Valid()
      modifies this
      ensures Valid()
      ensures connected == connectOk && wire == old(wire) + [ConnectCall]
      ensures topics == old(topics) && qos == old(qos)
    {
      wire := wire + [ConnectCall];
      connected := connectOk;
    }

    /**
     * First QoS wins; the whole accumulated table is re-sent when connected,
     * and nothing is sent (but the entry is kept) when not.
     */
    method Subscribe(t: string, q: Byte)
      requires Valid()
      modifies this
      ensures Valid()
      ensures SubscribeStep(old(qos), old(wire), connected, t, q, qos, wire)
      ensures connected == old(connected) && topics == old(topics)
    {
      ghost var qos0 := qos;
      if t !in qos {
        qos := qos[t := q];
      }
      var ts, ls := CopyTable(qos);
      if connected {
        wire := wire + [SubscribeCall(ts[..], ls[..])];
        CarriedTable(ts[..], ls[..], qos);
      }
      forall k | 0 <= k < |wire| ensures SentFrom(wire[k], qos) {
        if k < |old(wire)| {
          assert wire[k] == old(wire)[k];
          if wire[k].SubscribeCall? {
            SubTableTransitive(TableOf(wire[k].topics, wire[k].levels), qos0, qos);
          }
        }
      }
    }

    /** Sends the publication when connected; otherwise drops it silently. */
    method Publish(t: string, value: string, q: Byte, retain: bool)
      requires Valid()
      modifies this
      ensures Valid()
      ensures wire == if connected then old(wire) + [PublishCall(Publication(t, value, q, retain))] else old(wire)
      ensures connected == old(connected) && topics == old(topics) && qos == old(qos)
    {
      if connected {
        wire := wire + [PublishCall(Publication(t, value, q, retain))];
      }
    }

    /** A bang on a parent publishes its argument to the default topic, QoS 0, no retain. */
    method ExecuteBang(args: string)
      requires Valid()
      modifies this
      ensures Valid()
      ensures wire == if connected then old(wire) + [PublishCall(Publication(topic, args, 0, false))] else old(wire)
      ensures connected == old(connected) && topics == old(topics) && qos == old(qos)
    {
      Publish(topic, args, 0, false);
    }

    /** The numeric value of every measure of this plugin. */
    function GetValue(): (r: real)
      ensures r == 0.0
    {
      0.0
    }

    /**
     * The poll tick: reconnects (outcome `reconnectOk`) only when the client
     * is disconnected, and always yields 0. A successful reconnect does not
     * re-send the subscription table.
     */
    method Update(reconnectOk: bool) returns (r: real)
      requires Valid()
      modifies this
      ensures Valid()
      ensures r == 0.0
      ensures old(connected) ==> connected && wire == old(wire)
      ensures !old(connected) ==> connected == reconnectOk && wire == old(wire) + [ConnectCall]
      ensures topics == old(topics) && qos == old(qos)
    {
      if !connected {
        Reconnect(reconnectOk);
      }
      r := GetValue();
    }

    /** The cached payload of `t`, available only while connected; null otherwise. */
    function GetString(t: string): (r: Option<string>)
      reads this
      ensures r.Some? <==> connected && t in topics
      ensures r.Some? ==> r.value == topics[t]
    {
      if connected && t in topics then Some(topics[t]) else None
    }

    /** Disconnects if connected and leaves the registry. */
    method Dispose()
      requires Valid() && registry.Valid()
      modifies this, registry
      ensures Valid() && registry.Valid()
      ensures registry.parents == RemoveFirst(old(registry.parents), this)
      ensures this !in registry.parents
      ensures forall p :: p in old(registry.parents) && p != this ==> p in registry.parents
      ensures !connected
      ensures wire == if old(connected) then old(wire) + [DisconnectCall] else old(wire)
      ensures topics == old(topics) && qos == old(qos)
    {
      if connected {
        wire := wire + [DisconnectCall];
        connected := false;
      }
      RemoveFirstDistinct(registry.parents, this);
      registry.parents := RemoveFirst(registry.parents, this);
    }
  }
}
