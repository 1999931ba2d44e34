/** When a message is accepted, in the characters of the topic and the fields of the spec and of the
    payload. */
module Acceptance {
  import opened Text
  import opened TopicAddress
  import opened BmsSchema

  /** The node is an object with this field. */
  predicate IsField(node: Json, name: string, child: Json) {
    node.JObj? && name in node.fields && node.fields[name] == child
  }

  lemma FieldMeaning(node: Json, name: string)
    ensures forall child :: FieldOf(node, name) == Some(child) <==> IsField(node, name, child)
    ensures AsMap(FieldOf(node, name)).Some? <==> exists fields :: IsField(node, name, JObj(fields))
    ensures AsMap(FieldOf(node, name)).Some? ==> IsField(node, name, JObj(AsMap(FieldOf(node, name)).value))
    ensures AsString(FieldOf(node, name)).Some? ==> IsField(node, name, JStr(AsString(FieldOf(node, name)).value))
    ensures forall s :: IsField(node, name, JStr(s)) ==> AsString(FieldOf(node, name)) == Some(s)
    ensures forall fields :: IsField(node, name, JObj(fields)) ==> AsMap(FieldOf(node, name)) == Some(fields)
  {
  }

  // ---------------------------------------------------------------- the topic

  predicate IsForbidding(
      parameters: map<string, Json>, parameter: map<string, Json>, items: seq<Json>, name: string, value: string) {
    && IsField(JObj(parameters), name, JObj(parameter))
    && IsField(JObj(parameter), "enum", JArr(items)) && JStr(value) !in items
  }

  /** The channel lists the values that the parameter may have, and this is none of them. */
  ghost predicate Forbids(channel: Json, name: string, value: string) {
    exists parameters, parameter, items ::
      IsField(channel, "parameters", JObj(parameters)) && IsForbidding(parameters, parameter, items, name, value)
  }

  lemma ForbidsMeaning(channel: Json, name: string, value: string)
    ensures Forbids(channel, name, value) <==>
              && AsMap(FieldOf(channel, "parameters")).Some?
              && !ParamAllowed(AsMap(FieldOf(channel, "parameters")).value, name, value)
  {
    FieldMeaning(channel, "parameters");
    if AsMap(FieldOf(channel, "parameters")).Some? {
      var parameters := AsMap(FieldOf(channel, "parameters")).value;
      if !ParamAllowed(parameters, name, value) {
        var parameter := parameters[name].fields;
        assert IsForbidding(parameters, parameter, parameter["enum"].items, name, value);
      }
    }
  }

  /** The address of the channel, filled with the values, is the topic, and no value is forbidden. */
  ghost predicate Takes(channel: Json, topic: string, address: string, values: seq<string>) {
    var parts := Split(address, '/');
    && IsField(channel, "address", JStr(address))
    && |values| == |parts| && Fits(parts, values) && Join(values, "/") == topic
    && forall i: nat, name :: IsLastParam(parts, i, name) ==> !Forbids(channel, name, values[i])
  }

  lemma AllowedMeaning(channel: Json, parts: seq<string>, values: seq<string>)
    requires |values| == |parts|
    ensures ParamsAllowed(channel, Bindings(parts, values)) <==>
              forall i: nat, name :: IsLastParam(parts, i, name) ==> !Forbids(channel, name, values[i])
  {
    hide Bindings, Forbids, ParamAllowed, FieldOf;
    var r := Bindings(parts, values);
    forall i: nat, name | IsLastParam(parts, i, name)
      ensures name in r && r[name] == values[i]
    {
      BindingsMeaning(parts, values, name);
    }
    forall name | name in r
      ensures exists i: nat :: IsLastParam(parts, i, name)
      ensures Forbids(channel, name, r[name]) <==>
                && AsMap(FieldOf(channel, "parameters")).Some?
                && !ParamAllowed(AsMap(FieldOf(channel, "parameters")).value, name, r[name])
    {
      BindingsMeaning(parts, values, name);
      ForbidsMeaning(channel, name, r[name]);
    }
  }

  /** The channel takes the topic with these parameters iff some values fill its address to the topic. */
  lemma TakesMeaning(channel: Json, topic: string)
    ensures ChannelParams(channel, topic).Some? <==> exists address, values :: Takes(channel, topic, address, values)
    ensures forall address, values :: Takes(channel, topic, address, values) ==>
              && |values| == |Split(address, '/')|
              && ChannelParams(channel, topic) == Some(Bindings(Split(address, '/'), values))
  {
    hide Matched, Bindings, Split, ParamsAllowed, Takes;
    if ChannelParams(channel, topic).Some? {
      var address, values := SomeTakes(channel, topic);
    }
    forall address, values | Takes(channel, topic, address, values)
      ensures |values| == |Split(address, '/')|
      ensures ChannelParams(channel, topic) == Some(Bindings(Split(address, '/'), values))
    {
      TakesBinds(channel, topic, address, values);
    }
  }

  lemma SomeTakes(channel: Json, topic: string) returns (address: string, values: seq<string>)
    requires ChannelParams(channel, topic).Some?
    ensures Takes(channel, topic, address, values)
  {
    hide Matched, Bindings, Split, ParamsAllowed, Forbids;
    FieldMeaning(channel, "address");
    address := AsString(FieldOf(channel, "address")).value;
    var parts, params := Split(address, '/'), ChannelParams(channel, topic).value;
    MatchIsInverse(address, topic, params);
    values :| Fits(parts, values) && Join(values, "/") == topic && Bindings(parts, values) == params;
    AllowedMeaning(channel, parts, values);
  }

  lemma TakesBinds(channel: Json, topic: string, address: string, values: seq<string>)
    requires Takes(channel, topic, address, values)
    ensures |values| == |Split(address, '/')|
    ensures ChannelParams(channel, topic) == Some(Bindings(Split(address, '/'), values))
  {
    hide Matched, Bindings, Split, ParamsAllowed, Forbids;
    FieldMeaning(channel, "address");
    FittingReads(address, values);
    AllowedMeaning(channel, Split(address, '/'), values);
  }

  // ---------------------------------------------------------------- the payload

  /** A message of the channel. */
  ghost predicate IsMessage(channel: Json, key: string, message: Json) {
    exists messages :: IsField(channel, "messages", JObj(messages)) && IsField(JObj(messages), key, message)
  }

  /** A message of the channel refers to one under `components/messages` whose payload schema
      compiles and takes the payload. */
  ghost predicate Validates(lib: Library, channel: Json, key: string, name: string, value: Json) {
    && (exists message :: IsMessage(channel, key, message) && IsReference(message, name))
    && TakesPayload(lib, name, value)
  }

  predicate IsReference(message: Json, name: string) {
    IsField(message, "$ref", JStr("#/components/messages/" + name))
  }

  predicate TakesPayload(lib: Library, name: string, value: Json) {
    var location := "https://dsx.local/schemas/asyncapi/bms.yaml" + ("#/components/messages/" + name) + "/payload";
    lib.compile(location).Some? && lib.compile(location).value(value)
  }

  /** Where the payload is an object, its fields named like parameters are the values filled in. */
  ghost predicate Agrees(value: Json, parts: seq<string>, values: seq<string>)
    requires |values| == |parts|
  {
    forall i: nat, name :: IsLastParam(parts, i, name) && value.JObj? && name in value.fields ==>
      value.fields[name] == JStr(values[i])
  }

  lemma AgreesMeaning(value: Json, parts: seq<string>, values: seq<string>)
    requires |values| == |parts|
    ensures PayloadAgrees(Bindings(parts, values), value) <==> Agrees(value, parts, values)
  {
    hide Bindings;
    var r := Bindings(parts, values);
    forall i: nat, name | IsLastParam(parts, i, name)
      ensures name in r && r[name] == values[i]
    {
      BindingsMeaning(parts, values, name);
    }
    forall name | name in r ensures exists i: nat :: IsLastParam(parts, i, name) {
      BindingsMeaning(parts, values, name);
    }
  }

  lemma LocationOf(message: Json, name: string)
    requires IsReference(message, name)
    ensures PayloadLocation(message)
         == Some("https://dsx.local/schemas/asyncapi/bms.yaml" + ("#/components/messages/" + name) + "/payload")
  {
    FieldMeaning(message, "$ref");
    var ref := "#/components/messages/" + name;
    assert ref[..|MESSAGE_REF|] == MESSAGE_REF;
    assert "#" + ref[1..] == ref;
    Concat(SCHEMA_RESOURCE, "#", ref[1..]);
  }

  lemma NameOf(message: Json) returns (name: string)
    requires PayloadLocation(message).Some?
    ensures IsReference(message, name)
  {
    FieldMeaning(message, "$ref");
    var ref := AsString(FieldOf(message, "$ref")).value;
    name := ref[|MESSAGE_REF|..];
    assert ref == "#/components/messages/" + name;
  }

  lemma MessageMeaning(lib: Library, message: Json, params: Params, value: Json)
    ensures MessageAccepts(lib, message, params, value) <==>
              && (exists name :: IsReference(message, name) && TakesPayload(lib, name, value))
              && PayloadAgrees(params, value)
  {
    hide PayloadLocation, PayloadAgrees, IsReference;
    if PayloadLocation(message).Some? {
      var name := NameOf(message);
      LocationOf(message, name);
    }
    forall name | IsReference(message, name)
      ensures PayloadLocation(message)
           == Some("https://dsx.local/schemas/asyncapi/bms.yaml" + ("#/components/messages/" + name) + "/payload")
    {
      LocationOf(message, name);
    }
  }

  lemma ValidatesMeaning(lib: Library, channel: Json, params: Params, value: Json)
    ensures MessagesAccept(lib, channel, params, value) <==>
              (exists key, name :: Validates(lib, channel, key, name, value)) && PayloadAgrees(params, value)
  {
    hide PayloadAgrees, FieldOf, IsReference, TakesPayload, MessageAccepts;
    FieldMeaning(channel, "messages");
    if MessagesAccept(lib, channel, params, value) {
      var messages := AsMap(FieldOf(channel, "messages")).value;
      var key :| key in messages && MessageAccepts(lib, messages[key], params, value);
      MessageMeaning(lib, messages[key], params, value);
      var name :| IsReference(messages[key], name) && TakesPayload(lib, name, value);
      assert IsField(JObj(messages), key, messages[key]);
      assert IsMessage(channel, key, messages[key]);
      assert Validates(lib, channel, key, name, value);
    }
    if PayloadAgrees(params, value) {
      forall key, name | Validates(lib, channel, key, name, value)
        ensures MessagesAccept(lib, channel, params, value)
      {
        var message :| IsMessage(channel, key, message) && IsReference(message, name);
        MessageMeaning(lib, message, params, value);
      }
    }
  }

  // ---------------------------------------------------------------- the verdict

  ghost predicate IsChannel(spec: Json, channel: Json) {
    exists channels, name :: IsField(spec, "channels", JObj(channels)) && IsField(JObj(channels), name, channel)
  }

  /** A channel of the spec that takes the topic. */
  ghost predicate IsOpen(spec: Json, topic: string, channel: Json, address: string, values: seq<string>) {
    IsChannel(spec, channel) && Takes(channel, topic, address, values) && |values| == |Split(address, '/')|
  }

  /** The channel accepts the payload, under values that fill its address to the topic. */
  ghost predicate IsAccepting(
      lib: Library, spec: Json, topic: string, value: Json, channel: Json, address: string, values: seq<string>) {
    && IsOpen(spec, topic, channel, address, values)
    && (exists key, name :: Validates(lib, channel, key, name, value))
    && Agrees(value, Split(address, '/'), values)
  }

  lemma ChannelMeaning(lib: Library, spec: Json, topic: string, value: Json, channel: Json)
    requires IsChannel(spec, channel)
    ensures ChannelParams(channel, topic).Some? <==>
              exists address, values :: IsOpen(spec, topic, channel, address, values)
    ensures ChannelAccepts(lib, channel, topic, value) <==>
              exists address, values :: IsAccepting(lib, spec, topic, value, channel, address, values)
  {
    hide ChannelParams, MessagesAccept, IsChannel, Takes, Validates, Agrees, Split, Bindings, PayloadAgrees;
    TakesMeaning(channel, topic);
    forall address, values | IsOpen(spec, topic, channel, address, values)
      ensures ChannelParams(channel, topic).Some?
      ensures ChannelAccepts(lib, channel, topic, value) <==>
                IsAccepting(lib, spec, topic, value, channel, address, values)
    {
      ValidatesMeaning(lib, channel, Bindings(Split(address, '/'), values), value);
      AgreesMeaning(value, Split(address, '/'), values);
    }
    if ChannelParams(channel, topic).Some? {
      var address, values :| Takes(channel, topic, address, values);
      assert IsOpen(spec, topic, channel, address, values);
    }
  }

  /** Every verdict, in the fields of the spec and of the payload. A message is accepted iff there is a
      channel whose address, filled with values that its enums allow, is the topic, one of its messages
      validates the payload, and every payload field named like a parameter is the value filled in. */
  lemma VerdictMeaning(lib: Library, spec: Json, topic: string, payload: string)
    ensures var v, value := VerdictOf(lib, spec, topic, payload), lib.decode(payload);
            && (v == NotJson <==> value.None?)
            && (v == NoChannels <==> value.Some? && !exists channels :: IsField(spec, "channels", JObj(channels)))
            && (v == Accepted <==> value.Some? && exists channel, address, values ::
                  IsAccepting(lib, spec, topic, value.value, channel, address, values))
            && (v == Accepted || v == PayloadMismatch <==> value.Some? && exists channel, address, values ::
                  IsOpen(spec, topic, channel, address, values))
  {
    hide ChannelAccepts, ChannelParams, FieldOf, AsMap, IsOpen, IsAccepting, IsChannel;
    assert AsMap(FieldOf(spec, "channels")).Some? <==> exists channels :: IsField(spec, "channels", JObj(channels)) by {
      FieldMeaning(spec, "channels");
    }
    if lib.decode(payload).Some? && AsMap(FieldOf(spec, "channels")).Some? {
      VerdictOfChannels(lib, spec, topic, payload);
    } else {
      forall channel, address, values
        ensures lib.decode(payload).Some? ==> !IsOpen(spec, topic, channel, address, values)
        ensures lib.decode(payload).Some? ==>
                  !IsAccepting(lib, spec, topic, lib.decode(payload).value, channel, address, values)
      {
        NoChannelIsOpen(lib, spec, topic, payload, channel, address, values);
      }
    }
  }

  lemma NoChannelIsOpen(
      lib: Library, spec: Json, topic: string, payload: string, channel: Json, address: string, values: seq<string>)
    requires lib.decode(payload).None? || AsMap(FieldOf(spec, "channels")).None?
    ensures lib.decode(payload).Some? ==>
              && !IsOpen(spec, topic, channel, address, values)
              && !IsAccepting(lib, spec, topic, lib.decode(payload).value, channel, address, values)
  {
    hide Takes, FieldOf, Validates, Agrees, Split;
    FieldMeaning(spec, "channels");
  }

  lemma VerdictOfChannels(lib: Library, spec: Json, topic: string, payload: string)
    requires lib.decode(payload).Some? && AsMap(FieldOf(spec, "channels")).Some?
    ensures var v, value := VerdictOf(lib, spec, topic, payload), lib.decode(payload).value;
            && v != NotJson && v != NoChannels
            && (v == Accepted <==> exists channel, address, values ::
                  IsAccepting(lib, spec, topic, value, channel, address, values))
            && (v == Accepted || v == PayloadMismatch <==> exists channel, address, values ::
                  IsOpen(spec, topic, channel, address, values))
  {
    hide ChannelAccepts, ChannelParams, FieldOf, AsMap, Takes, Validates, Agrees, Split, IsChannel;
    var value := lib.decode(payload).value;
    var channels := AsMap(FieldOf(spec, "channels")).value;
    forall name | name in channels ensures IsChannel(spec, channels[name]) {
      NamedChannel(spec, channels, name);
    }
    forall channel | IsChannel(spec, channel)
      ensures exists name :: name in channels && channels[name] == channel
    {
      ChannelName(spec, channels, channel);
    }
    forall channel | IsChannel(spec, channel)
      ensures ChannelParams(channel, topic).Some? <==>
                exists address, values :: IsOpen(spec, topic, channel, address, values)
      ensures ChannelAccepts(lib, channel, topic, value) <==>
                exists address, values :: IsAccepting(lib, spec, topic, value, channel, address, values)
    {
      ChannelMeaning(lib, spec, topic, value, channel);
    }
    AcceptingIsOpen(lib, topic, value);
  }

  lemma AcceptingIsOpen(lib: Library, topic: string, value: Json)
    ensures forall channel :: ChannelAccepts(lib, channel, topic, value) ==> ChannelParams(channel, topic).Some?
  {
    hide ChannelParams, MessagesAccept;
  }

  lemma NamedChannel(spec: Json, channels: map<string, Json>, name: string)
    requires AsMap(FieldOf(spec, "channels")) == Some(channels) && name in channels
    ensures IsChannel(spec, channels[name])
  {
    FieldMeaning(spec, "channels");
    assert IsField(JObj(channels), name, channels[name]);
  }

  lemma ChannelName(spec: Json, channels: map<string, Json>, channel: Json)
    requires AsMap(FieldOf(spec, "channels")) == Some(channels) && IsChannel(spec, channel)
    ensures exists name :: name in channels && channels[name] == channel
  {
    FieldMeaning(spec, "channels");
  }

  /** A payload whose field differs from the topic's parameter of that name, on every channel that
      takes the topic, is not accepted; if there is such a channel, it is a mismatch. */
  lemma DifferingFieldIsRejected(lib: Library, spec: Json, topic: string, payload: string)
    requires lib.decode(payload).Some? && lib.decode(payload).value.JObj?
    requires forall channel, address, values :: IsOpen(spec, topic, channel, address, values) ==>
               exists i: nat, name ::
                 && i < |values| && IsLastParam(Split(address, '/'), i, name)
                 && name in lib.decode(payload).value.fields
                 && lib.decode(payload).value.fields[name] != JStr(values[i])
    ensures VerdictOf(lib, spec, topic, payload) != Accepted
    ensures (exists channel, address, values :: IsOpen(spec, topic, channel, address, values)) ==>
              VerdictOf(lib, spec, topic, payload) == PayloadMismatch
  {
    hide VerdictOf, IsOpen, Validates, IsLastParam;
    VerdictMeaning(lib, spec, topic, payload);
  }
}
