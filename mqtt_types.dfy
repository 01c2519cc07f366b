/**
 * Value types shared by the MQTT measure engine: the byte and unsigned-short
 * widths of the .NET fields, the host's option reader, the abstract transport
 * calls, and the small pure helpers of the plugin (port check, QoS cast,
 * argument-count dispatch).
 */
module MqttTypes {

  datatype Option<T> = None | Some(value: T)

  /** A .NET `byte`: QoS levels are passed to the transport as bytes. */
  newtype Byte = x: int | 0 <= x < 0x100

  /** A .NET `ushort`: the type of the parent's Port field. */
  newtype UShort = x: int | 0 <= x < 0x1_0000

  /** The host's skin handle; only compared for equality. */
  type SkinId = int

  const DefaultPort: UShort := 1883
  const DefaultTopic: string := "defaulttopic"

  /** The measure options as the host's configuration reader sees them. */
  datatype Options = Options(strings: map<string, string>, ints: map<string, int>)

  /** Reading a string option yields the given default when it is not set. */
  function ReadString(opts: Options, key: string, default: string): (r: string)
    ensures key in opts.strings ==> r == opts.strings[key]
    ensures key !in opts.strings ==> r == default
  {
    if key in opts.strings then opts.strings[key] else default
  }

  /** Reading an integer option yields the given default when it is not set. */
  function ReadInt(opts: Options, key: string, default: int): (r: int)
    ensures key in opts.ints ==> r == opts.ints[key]
    ensures key !in opts.ints ==> r == default
  {
    if key in opts.ints then opts.ints[key] else default
  }

  predicate ValidPort(port: int) {
    1 <= port <= 65535
  }

  /**
   * The port the client connects to: the configured one when it is a legal
   * TCP port, the MQTT default otherwise (the source logs a warning then).
   */
  function EffectivePort(port: int): (r: UShort)
    ensures ValidPort(r as int)
    ensures ValidPort(port) ==> r as int == port
    ensures !ValidPort(port) ==> r == DefaultPort
  {
    if port <= 0 || port > 65535 then DefaultPort else port as UShort
  }

  /** A legal port read back from a parent configures the same port again. */
  lemma EffectivePortIdempotent(port: int)
    ensures EffectivePort(EffectivePort(port) as int) == EffectivePort(port)
  {
  }

  /**
   * The unchecked C# cast `(byte)q`: only the low eight bits survive, so a
   * negative or oversized QoS option wraps around.
   */
  function ByteOf(q: int): (b: Byte)
    ensures 0 <= q < 0x100 ==> b as int == q
    ensures (b as int - q) % 0x100 == 0
  {
    (q % 0x100) as Byte
  }

  /** What one publish hands to the transport. */
  datatype Publication = Publication(topic: string, value: string, qos: Byte, retain: bool)

  /** One call into the MQTT transport, as recorded in a parent's ghost wire log. */
  datatype Call =
    | ConnectCall
    | SubscribeCall(topics: seq<string>, levels: seq<Byte>)
    | PublishCall(pub: Publication)
    | DisconnectCall

  /** The fixed pair published when the host passes the wrong number of arguments. */
  const PlaceholderTopic: string := "atopic"
  const PlaceholderValue: string := "avalue"

  /**
   * The topic and value the host's Publish section variable publishes: the
   * two arguments when exactly two are given, the placeholder pair otherwise.
   */
  function PublishArgs(argv: seq<string>): (r: (string, string))
    ensures |argv| == 2 ==> r.0 == argv[0] && r.1 == argv[1]
    ensures |argv| != 2 ==> r.0 == PlaceholderTopic && r.1 == PlaceholderValue
  {
    if |argv| == 2 then (argv[0], argv[1]) else (PlaceholderTopic, PlaceholderValue)
  }

  ghost predicate Distinct<T>(s: seq<T>) {
    forall i, j :: 0 <= i < j < |s| ==> s[i] != s[j]
  }
}
