/** Validating messages against the channels of an AsyncAPI spec. Go iterates maps in random
    order and compiled schemas are cached; the verdict depends on neither. */
module BmsSchema {
  import opened Text
  import opened TopicAddress

  /** A decoded JSON or YAML node; numbers are not looked into. */
  datatype Json =
    | JNull
    | JBool(b: bool)
    | JNum(text: string)
    | JStr(s: string)
    | JArr(items: seq<Json>)
    | JObj(fields: map<string, Json>)

  /** A compiled JSON schema: what it accepts. */
  type Schema = Json -> bool

  /** The library calls, each a fixed function: JSON decoding and compiling the schema at a location. */
  datatype Library = Library(decode: string -> Option<Json>, compile: string -> Option<Schema>)

  datatype Verdict =
    | Accepted
    | NotJson
    | NoChannels
    | NoMatchingChannel
    | PayloadMismatch

  function FieldOf(node: Json, name: string): Option<Json> {
    if node.JObj? && name in node.fields then Some(node.fields[name]) else None
  }

  function AsMap(node: Option<Json>): Option<map<string, Json>> {
    if node.Some? && node.value.JObj? then Some(node.value.fields) else None
  }

  function AsString(node: Option<Json>): Option<string> {
    if node.Some? && node.value.JStr? then Some(node.value.s) else None
  }

  predicate EnumContains(values: seq<Json>, value: string) {
    JStr(value) in values
  }

  // ---------------------------------------------------------------- one channel, one message

  /** The topic parameter is free, or its enum contains the value. */
  predicate ParamAllowed(parameters: map<string, Json>, name: string, value: string) {
    var parameter := AsMap(if name in parameters then Some(parameters[name]) else None);
    parameter.Some? && "enum" in parameter.value && parameter.value["enum"].JArr? ==>
      EnumContains(parameter.value["enum"].items, value)
  }

  predicate ParamsAllowed(channel: Json, params: Params) {
    match AsMap(FieldOf(channel, "parameters"))
    case None => true
    case Some(parameters) => forall name :: name in params ==> ParamAllowed(parameters, name, params[name])
  }

  /** The parameters with which the channel takes the topic, if it does. */
  function ChannelParams(channel: Json, topic: string): Option<Params> {
    match AsString(FieldOf(channel, "address"))
    case None => None
    case Some(address) =>
      match Matched(address, topic)
      case None => None
      case Some(params) => if ParamsAllowed(channel, params) then Some(params) else None
  }

  const SCHEMA_RESOURCE := "https://dsx.local/schemas/asyncapi/bms.yaml"
  const MESSAGE_REF := "#/components/messages/"

  function PayloadLocation(message: Json): Option<string> {
    match AsString(FieldOf(message, "$ref"))
    case None => None
    case Some(ref) =>
      if StartsWith(ref, MESSAGE_REF) then Some(SCHEMA_RESOURCE + "#" + ref[1..] + "/payload") else None
  }

  /** Payload fields named like topic parameters carry the topic's values. */
  predicate PayloadAgrees(params: Params, value: Json) {
    value.JObj? ==> forall name :: name in params && name in value.fields ==> value.fields[name] == JStr(params[name])
  }

  predicate MessageAccepts(lib: Library, message: Json, params: Params, value: Json) {
    var location := PayloadLocation(message);
    && location.Some? && lib.compile(location.value).Some?
    && lib.compile(location.value).value(value) && PayloadAgrees(params, value)
  }

  predicate MessagesAccept(lib: Library, channel: Json, params: Params, value: Json) {
    var messages := AsMap(FieldOf(channel, "messages"));
    messages.Some? && exists name :: name in messages.value && MessageAccepts(lib, messages.value[name], params, value)
  }

  predicate ChannelAccepts(lib: Library, channel: Json, topic: string, value: Json) {
    ChannelParams(channel, topic).Some? && MessagesAccept(lib, channel, ChannelParams(channel, topic).value, value)
  }

  /** The verdict over the set of channels: no order, no cache. */
  function VerdictOf(lib: Library, spec: Json, topic: string, payload: string): Verdict {
    match lib.decode(payload)
    case None => NotJson
    case Some(value) =>
      match AsMap(FieldOf(spec, "channels"))
      case None => NoChannels
      case Some(channels) =>
        if exists name :: name in channels && ChannelAccepts(lib, channels[name], topic, value) then Accepted
        else if exists name :: name in channels && ChannelParams(channels[name], topic).Some? then PayloadMismatch
        else NoMatchingChannel
  }

  // ---------------------------------------------------------------- the validator

  class Validator {
    const lib: Library
    const spec: Json
    var compiled: map<string, Schema>

    constructor (lib: Library, spec: Json)
      ensures Valid() && this.lib == lib && this.spec == spec && compiled == map[]
    {
      this.lib := lib;
      this.spec := spec;
      compiled := map[];
    }

    /** The cache agrees with compiling afresh. */
    ghost predicate Valid()
      reads this
    {
      forall location :: location in compiled ==> lib.compile(location) == Some(compiled[location])
    }

    method Compile(location: string) returns (schema: Option<Schema>)
      requires Valid()
      modifies this
      ensures Valid() && schema == lib.compile(location)
      ensures compiled == if schema.Some? then old(compiled)[location := schema.value] else old(compiled)
    {
      if location in compiled {
        assert compiled == compiled[location := compiled[location]];
        return Some(compiled[location]);
      }
      schema := lib.compile(location);
      if schema.None? {
        return;
      }
      compiled := compiled[location := schema.value];
    }

    method ValidateMessage(topic: string, payload: string) returns (v: Verdict)
      requires Valid()
      modifies this
      ensures Valid() && v == VerdictOf(lib, spec, topic, payload)
    {
      hide ChannelAccepts, ChannelParams;
      var value := lib.decode(payload);
      if value.None? {
        return NotJson;
      }
      var channels := AsMap(FieldOf(spec, "channels"));
      if channels.None? {
        return NoChannels;
      }
      var matchedChannels := 0;
      var remaining := channels.value.Keys;
      while remaining != {}
        invariant Valid() && remaining <= channels.value.Keys
        invariant forall n :: n in channels.value && n !in remaining ==>
                    !ChannelAccepts(lib, channels.value[n], topic, value.value)
        invariant matchedChannels > 0 <==>
                    exists n :: n in channels.value && n !in remaining && ChannelParams(channels.value[n], topic).Some?
      {
        var name :| name in remaining;
        remaining := remaining - {name};
        var channel := channels.value[name];
        var params := ChannelParams(channel, topic);
        if params.None? {
          NotOpen(lib, channel, topic, value.value);
          continue;
        }
        matchedChannels := matchedChannels + 1;
        var ok := ValidateChannelMessages(channel, params.value, value.value);
        OpenAccepts(lib, channel, topic, value.value);
        if ok {
          return Accepted;
        }
      }
      v := if matchedChannels == 0 then NoMatchingChannel else PayloadMismatch;
    }

    method ValidateChannelMessages(channel: Json, params: Params, value: Json) returns (ok: bool)
      requires Valid()
      modifies this
      ensures Valid() && (ok <==> MessagesAccept(lib, channel, params, value))
    {
      hide PayloadLocation, PayloadAgrees;
      var messages := AsMap(FieldOf(channel, "messages"));
      if messages.None? {
        return false;
      }
      var remaining := messages.value.Keys;
      while remaining != {}
        invariant Valid() && remaining <= messages.value.Keys
        invariant forall n :: n in messages.value && n !in remaining ==>
                    !MessageAccepts(lib, messages.value[n], params, value)
      {
        var name :| name in remaining;
        remaining := remaining - {name};
        var location := PayloadLocation(messages.value[name]);
        if location.None? {
          continue;
        }
        var schema := Compile(location.value);
        if schema.None? {
          continue;
        }
        if !schema.value(value) {
          continue;
        }
        if !PayloadAgrees(params, value) {
          continue;
        }
        assert MessageAccepts(lib, messages.value[name], params, value);
        return true;
      }
      ok := false;
    }
  }

  lemma NotOpen(lib: Library, channel: Json, topic: string, value: Json)
    requires ChannelParams(channel, topic).None?
    ensures !ChannelAccepts(lib, channel, topic, value)
  {
  }

  lemma OpenAccepts(lib: Library, channel: Json, topic: string, value: Json)
    requires ChannelParams(channel, topic).Some?
    ensures ChannelAccepts(lib, channel, topic, value)
       <==> MessagesAccept(lib, channel, ChannelParams(channel, topic).value, value)
  {
  }

  // ---------------------------------------------------------------- what acceptance means

  /** An accepted message: some channel's address, filled with values, is the topic; the parameter
      bindings respect the enums; and a message of that channel accepts a payload that agrees with them. */
  lemma AcceptedMeaning(
      lib: Library, spec: Json, topic: string, payload: string) returns (channel: Json, values: seq<string>)
    requires VerdictOf(lib, spec, topic, payload) == Accepted
    ensures var address := AsString(FieldOf(channel, "address"));
            && address.Some?
            && (var parts := Split(address.value, '/');
                && Fits(parts, values) && Join(values, "/") == topic
                && ParamsAllowed(channel, Bindings(parts, values))
                && MessagesAccept(lib, channel, Bindings(parts, values), lib.decode(payload).value)
                && PayloadAgrees(Bindings(parts, values), lib.decode(payload).value))
  {
    hide Matched, Fits, Bindings, Join, Split, ParamsAllowed;
    var value := lib.decode(payload).value;
    var channels := AsMap(FieldOf(spec, "channels")).value;
    var name :| name in channels && ChannelAccepts(lib, channels[name], topic, value);
    channel := channels[name];
    var address := AsString(FieldOf(channel, "address")).value;
    MatchFits(address, topic);
    values := ValuesIn(Split(address, '/'), Split(topic, '/'));
  }

  /** A topic with an empty segment or a wildcard matches no channel. */
  lemma BadTopicIsRejected(lib: Library, spec: Json, topic: string, payload: string)
    requires !AllSegments(Split(topic, '/'))
    ensures VerdictOf(lib, spec, topic, payload) !in {Accepted, PayloadMismatch}
  {
    hide AllSegments, Split;
    assert forall channel :: ChannelParams(channel, topic).None?;
  }

  /** More channels never turn an acceptance into a rejection. */
  lemma AcceptanceIsMonotone(
      lib: Library, channels: map<string, Json>, more: map<string, Json>, topic: string, payload: string)
    requires VerdictOf(lib, JObj(map["channels" := JObj(channels)]), topic, payload) == Accepted
    requires forall name :: name in channels ==> name in more && more[name] == channels[name]
    ensures VerdictOf(lib, JObj(map["channels" := JObj(more)]), topic, payload) == Accepted
  {
    hide ChannelAccepts;
    var value := lib.decode(payload).value;
    var name :| name in channels && ChannelAccepts(lib, channels[name], topic, value);
    assert ChannelAccepts(lib, more[name], topic, value);
  }
}
