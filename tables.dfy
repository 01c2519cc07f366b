/**
 * The two hash tables a parent measure keeps: the topic cache (topic to the
 * last payload received) and the subscription table (topic to the QoS it was
 * first requested with), and the snapshot of the subscription table that every
 * subscribe call carries as a pair of parallel arrays.
 */
module Tables {
  import opened MqttTypes

  type Cache = map<string, string>
  type QosTable = map<string, Byte>

  /** Every entry of `a` is in `b` with the same value. */
  ghost predicate SubTable<V>(a: map<string, V>, b: map<string, V>) {
    forall k :: k in a ==> k in b && b[k] == a[k]
  }

  lemma SubTableTransitive<V>(a: map<string, V>, b: map<string, V>, c: map<string, V>)
    requires SubTable(a, b) && SubTable(b, c)
    ensures SubTable(a, c)
  {
  }

  /**
   * An inbound message overwrites (or creates) the cache entry of its topic
   * and leaves every other entry as it was.
   */
  function Store(cache: Cache, t: string, msg: string): (r: Cache)
    ensures t in r && r[t] == msg
    ensures r.Keys == cache.Keys + {t}
    ensures forall u :: u in cache && u != t ==> r[u] == cache[u]
  {
    cache[t := msg]
  }

  /** Last write wins: a second message on a topic hides the first entirely. */
  lemma LastWriteWins(cache: Cache, t: string, v1: string, v2: string)
    ensures Store(Store(cache, t, v1), t, v2) == Store(cache, t, v2)
  {
  }

  /**
   * Adding a subscription inserts the topic only when it is absent: the
   * first QoS registered for a topic wins and the table never shrinks.
   */
  function AddSubscription(table: QosTable, t: string, q: Byte): (r: QosTable)
    ensures t in r
    ensures r.Keys == table.Keys + {t}
    ensures SubTable(table, r)
    ensures t !in table ==> r[t] == q
  {
    if t in table then table else table[t := q]
  }

  /** Re-registering a topic with another QoS changes nothing. */
  lemma FirstQosWins(table: QosTable, t: string, q1: Byte, q2: Byte)
    ensures AddSubscription(AddSubscription(table, t, q1), t, q2) == AddSubscription(table, t, q1)
    ensures t !in table ==> AddSubscription(AddSubscription(table, t, q1), t, q2)[t] == q1
  {
  }

  /** The table that parallel topic and QoS arrays describe, pair by pair. */
  function TableOf(topics: seq<string>, levels: seq<Byte>): QosTable
    requires |topics| == |levels|
  {
    if topics == [] then map[]
    else TableOf(topics[..|topics| - 1], levels[..|levels| - 1])[topics[|topics| - 1] := levels[|levels| - 1]]
  }

  /**
   * Parallel arrays carry `table` exactly: one entry per key, no key twice,
   * each topic paired with its own QoS.
   */
  ghost predicate Carries(topics: seq<string>, levels: seq<Byte>, table: QosTable) {
    && |topics| == |levels| == |table|
    && Distinct(topics)
    && (forall i :: 0 <= i < |topics| ==> topics[i] in table && table[topics[i]] == levels[i])
    && (forall t :: t in table ==> t in topics)
  }

  /** Dropping the last pair of a snapshot leaves a snapshot of the rest of the table. */
  lemma CarriesPrefix(topics: seq<string>, levels: seq<Byte>, table: QosTable)
    requires Carries(topics, levels, table) && topics != []
    ensures Carries(topics[..|topics| - 1], levels[..|levels| - 1], table - {topics[|topics| - 1]})
  {
  }

  /** Reading back the arrays of a snapshot gives the table it was taken from. */
  lemma {:induction false} CarriedTable(topics: seq<string>, levels: seq<Byte>, table: QosTable)
    requires Carries(topics, levels, table)
    ensures |topics| == |levels| && TableOf(topics, levels) == table
  {
    if topics != [] {
      var n := |topics| - 1;
      var x := topics[n];
      CarriesPrefix(topics, levels, table);
      CarriedTable(topics[..n], levels[..n], table - {x});
      assert x in table && table[x] == levels[n];
      assert (table - {x})[x := levels[n]] == table;
    }
  }

  /**
   * The copy of the subscription table into fresh parallel arrays that every
   * subscribe call sends. Keys and values are enumerated together, in the
   * table's own (unspecified) order.
   */
  method CopyTable(table: QosTable) returns (topics: array<string>, levels: array<Byte>)
    ensures Carries(topics[..], levels[..], table)
  {
    topics := new string[|table|](_ => "");
    levels := new Byte[|table|](_ => 0);
    var rest := table.Keys;
    var i := 0;
    while rest != {}
      invariant i + |rest| == |table|
      invariant rest <= table.Keys
      invariant forall k :: 0 <= k < i ==> topics[k] in table && topics[k] !in rest && levels[k] == table[topics[k]]
      invariant forall t :: t in table && t !in rest ==> t in topics[..i]
      invariant Distinct(topics[..i])
      decreases |rest|
    {
      var t :| t in rest;
      ghost var done := topics[..i];
      topics[i] := t;
      levels[i] := table[t];
      assert topics[..i + 1] == done + [t];
      rest := rest - {t};
      i := i + 1;
    }
    assert topics[..i] == topics[..];
  }
}
