/** Which of the two wrappers, signed or unsigned, the generator gives a protocol enum. */
module Enums {
  import opened Outcomes
  import opened Codec

  datatype Use = Use(kind: Kind, enumName: Option<string>)

  datatype Interface = Interface(name: string, requests: seq<seq<Use>>, events: seq<seq<Use>>)

  function IndexOf(text: string, c: char): (index: Option<nat>)
    ensures index.None? <==> c !in text
    ensures index.Some? ==> index.value < |text| && text[index.value] == c && c !in text[..index.value]
  {
    if text == "" then None
    else if text[0] == c then Some(0)
    else match IndexOf(text[1..], c)
         case None => None
         case Some(i) => Some(i + 1)
  }

  /** Both `name` from the enum's own interface and `interface.name` from anywhere refer to an enum. */
  predicate EnumReferenceMatches(reference: string, consumer: string, owner: string, name: string) {
    if reference == name then consumer == owner
    else match IndexOf(reference, '.')
         case None => false
         case Some(separator) => reference[..separator] == owner && reference[separator + 1..] == name
  }

  lemma ReferenceMatchesIff(reference: string, consumer: string, owner: string, name: string)
    ensures EnumReferenceMatches(reference, consumer, owner, name) <==>
            if reference == name then consumer == owner else '.' !in owner && reference == owner + "." + name
  {
    var dotted := owner + "." + name;
    match IndexOf(reference, '.')
    case None => assert dotted[|owner|] == '.';
    case Some(separator) =>
      assert reference == reference[..separator] + "." + reference[separator + 1..];
      if '.' !in owner && reference == dotted {
        assert dotted[..|owner|] == owner && dotted[|owner|] == '.' && dotted[|owner| + 1..] == name;
        assert separator >= |owner|;
        assert separator <= |owner|;
      }
  }

  /** The kinds of the arguments that use the enum, in the order of the protocol. */
  ghost function UsesIn(consumer: string, owner: string, name: string, arguments: seq<Use>): seq<Kind> {
    if arguments == [] then [] else
    var n := |arguments| - 1;
    var last := arguments[n];
    UsesIn(consumer, owner, name, arguments[..n])
    + if last.enumName.Some? && EnumReferenceMatches(last.enumName.value, consumer, owner, name)
      then [last.kind] else []
  }

  ghost function UsesInMessages(consumer: string, owner: string, name: string, messages: seq<seq<Use>>): seq<Kind> {
    if messages == [] then [] else
    var n := |messages| - 1;
    UsesInMessages(consumer, owner, name, messages[..n]) + UsesIn(consumer, owner, name, messages[n])
  }

  ghost function Uses(protocol: seq<Interface>, owner: string, name: string): seq<Kind> {
    if protocol == [] then [] else
    var n := |protocol| - 1;
    var last := protocol[n];
    Uses(protocol[..n], owner, name)
    + UsesInMessages(last.name, owner, name, last.requests) + UsesInMessages(last.name, owner, name, last.events)
  }

  predicate Integral(kinds: seq<Kind>) {
    forall k :: k in kinds ==> k == IntArg || k == UintArg
  }

  /** Signed as soon as one use is signed. */
  function Verdict(kinds: seq<Kind>): Option<bool> {
    if IntArg in kinds then Some(true) else if kinds != [] then Some(false) else None
  }

  ghost predicate Reports(r: Result<Option<bool>, Error>, kinds: seq<Kind>) {
    r == if Integral(kinds) then Ok(Verdict(kinds)) else Err(InvalidEnumType)
  }

  /** A use that is neither int nor uint is an error, whatever uses follow. */
  lemma ErrorStays(kinds: seq<Kind>, more: seq<Kind>)
    requires Reports(Err(InvalidEnumType), kinds)
    ensures Reports(Err(InvalidEnumType), kinds + more)
  {
    var k :| k in kinds && k != IntArg && k != UintArg;
    assert k in kinds + more;
  }

  lemma OneMoreUse(kinds: seq<Kind>, k: Kind)
    requires Integral(kinds)
    ensures Reports(if k != IntArg && k != UintArg then Err(InvalidEnumType)
                    else if k == IntArg || Verdict(kinds).None? then Ok(Some(k == IntArg)) else Ok(Verdict(kinds)),
                    kinds + [k])
  {
    assert k in kinds + [k];
  }

  /** `seen` are the uses met before these arguments. */
  method InspectEnumArguments(
    consumer: string, owner: string, name: string, arguments: seq<Use>, signed: Option<bool>, ghost seen: seq<Kind>)
    returns (r: Result<Option<bool>, Error>)
    requires Reports(Ok(signed), seen)
    ensures Reports(r, seen + UsesIn(consumer, owner, name, arguments))
  {
    hide EnumReferenceMatches, Reports, Integral, Verdict;
    var current := signed;
    assert arguments[..0] == [] && seen + [] == seen;
    for i := 0 to |arguments|
      invariant Reports(Ok(current), seen + UsesIn(consumer, owner, name, arguments[..i]))
    {
      ghost var before, rest := UsesIn(consumer, owner, name, arguments[..i]), UsesIn(consumer, owner, name, arguments);
      var argument := arguments[i];
      LastUse(consumer, owner, name, arguments, i);
      if argument.enumName.None? || !EnumReferenceMatches(argument.enumName.value, consumer, owner, name) {
        assert before + [] == before;
        continue;
      }
      assert seen + (before + [argument.kind]) == (seen + before) + [argument.kind];
      ReportsParts(Ok(current), seen + before);
      OneMoreUse(seen + before, argument.kind);
      if argument.kind != IntArg && argument.kind != UintArg {
        PrefixOfUses(consumer, owner, name, arguments, i + 1);
        ghost var more := rest[|before| + 1..];
        assert seen + rest == (seen + (before + [argument.kind])) + more;
        ErrorStays(seen + (before + [argument.kind]), more);
        return Err(InvalidEnumType);
      }
      if argument.kind == IntArg || current.None? {
        current := Some(argument.kind == IntArg);
      }
    }
    assert arguments[..|arguments|] == arguments;
    return Ok(current);
  }

  lemma ReportsParts(r: Result<Option<bool>, Error>, kinds: seq<Kind>)
    requires Reports(r, kinds)
    ensures r.Ok? ==> Integral(kinds) && r.value == Verdict(kinds)
    ensures r.Err? ==> r == Err(InvalidEnumType) && !Integral(kinds)
  {}

  lemma LastUse(consumer: string, owner: string, name: string, arguments: seq<Use>, i: nat)
    requires i < |arguments|
    ensures UsesIn(consumer, owner, name, arguments[..i + 1]) ==
            UsesIn(consumer, owner, name, arguments[..i])
            + if arguments[i].enumName.Some? && EnumReferenceMatches(arguments[i].enumName.value, consumer, owner, name)
              then [arguments[i].kind] else []
  {
    hide EnumReferenceMatches;
    assert arguments[..i + 1][..i] == arguments[..i];
  }

  lemma {:induction false} PrefixOfUses(consumer: string, owner: string, name: string, arguments: seq<Use>, i: nat)
    requires i <= |arguments|
    ensures UsesIn(consumer, owner, name, arguments[..i]) <= UsesIn(consumer, owner, name, arguments)
    decreases |arguments|
  {
    if i == |arguments| {
      assert arguments[..i] == arguments;
    } else {
      var n := |arguments| - 1;
      PrefixOfUses(consumer, owner, name, arguments[..n], i);
      assert arguments[..n][..i] == arguments[..i];
    }
  }

  lemma {:induction false} PrefixOfMessages(
    consumer: string, owner: string, name: string, messages: seq<seq<Use>>, i: nat)
    requires i <= |messages|
    ensures UsesInMessages(consumer, owner, name, messages[..i]) <= UsesInMessages(consumer, owner, name, messages)
    decreases |messages|
  {
    hide UsesIn;
    if i == |messages| {
      assert messages[..i] == messages;
    } else {
      var n := |messages| - 1;
      PrefixOfMessages(consumer, owner, name, messages[..n], i);
      assert messages[..n][..i] == messages[..i];
    }
  }

  lemma {:induction false} PrefixOfProtocol(protocol: seq<Interface>, owner: string, name: string, i: nat)
    requires i <= |protocol|
    ensures Uses(protocol[..i], owner, name) <= Uses(protocol, owner, name)
    decreases |protocol|
  {
    hide UsesInMessages;
    if i == |protocol| {
      assert protocol[..i] == protocol;
    } else {
      var n := |protocol| - 1;
      PrefixOfProtocol(protocol[..n], owner, name, i);
      assert protocol[..n][..i] == protocol[..i];
    }
  }

  method InspectMessages(
    consumer: string, owner: string, name: string, messages: seq<seq<Use>>, signed: Option<bool>, ghost seen: seq<Kind>)
    returns (r: Result<Option<bool>, Error>)
    requires Reports(Ok(signed), seen)
    ensures Reports(r, seen + UsesInMessages(consumer, owner, name, messages))
  {
    hide Reports, UsesIn;
    r := Ok(signed);
    assert messages[..0] == [] && seen + [] == seen;
    for i := 0 to |messages|
      invariant r.Ok? && Reports(r, seen + UsesInMessages(consumer, owner, name, messages[..i]))
    {
      assert messages[..i + 1][..i] == messages[..i];
      ghost var before := seen + UsesInMessages(consumer, owner, name, messages[..i]);
      ghost var here := UsesIn(consumer, owner, name, messages[i]);
      assert seen + (UsesInMessages(consumer, owner, name, messages[..i]) + here) == before + here;
      r := InspectEnumArguments(consumer, owner, name, messages[i], r.value, before);
      if r.Err? {
        ReportsParts(r, before + here);
        PrefixOfMessages(consumer, owner, name, messages, i + 1);
        ghost var whole := seen + UsesInMessages(consumer, owner, name, messages);
        assert whole == (before + here) + whole[|before + here|..];
        ErrorStays(before + here, whole[|before + here|..]);
        return;
      }
    }
    assert messages[..|messages|] == messages;
  }

  /** Signed exactly when some use in the protocol is signed or, for an enum without uses, some entry is
      negative; an error exactly when some use is neither int nor uint. */
  method EnumIsSigned(protocol: seq<Interface>, owner: string, name: string, entries: seq<int>)
    returns (r: Result<bool, Error>)
    ensures r.Err? <==> !Integral(Uses(protocol, owner, name))
    ensures r.Err? ==> r.error == InvalidEnumType
    ensures r.Ok? ==>
              var kinds := Uses(protocol, owner, name);
              r.value <==> IntArg in kinds || (kinds == [] && exists e :: e in entries && e < 0)
  {
    hide Reports, UsesInMessages, Integral;
    var signed: Option<bool> := None;
    assert protocol[..0] == [];
    NoUses();
    for i := 0 to |protocol|
      invariant Reports(Ok(signed), Uses(protocol[..i], owner, name))
    {
      assert protocol[..i + 1][..i] == protocol[..i];
      var interface := protocol[i];
      ghost var before := Uses(protocol[..i], owner, name);
      ghost var requests := UsesInMessages(interface.name, owner, name, interface.requests);
      ghost var events := UsesInMessages(interface.name, owner, name, interface.events);
      ghost var whole := Uses(protocol, owner, name);
      PrefixOfProtocol(protocol, owner, name, i + 1);
      assert whole == (before + requests + events) + whole[|before + requests + events|..];
      var result := InspectMessages(interface.name, owner, name, interface.requests, signed, before);
      ReportsParts(result, before + requests);
      if result.Err? {
        ErrorStays(before + requests, events);
        ErrorStays(before + requests + events, whole[|before + requests + events|..]);
        ReportsParts(Err(InvalidEnumType), whole);
        return Err(result.error);
      }
      result := InspectMessages(interface.name, owner, name, interface.events, result.value, before + requests);
      ReportsParts(result, before + requests + events);
      if result.Err? {
        ErrorStays(before + requests + events, whole[|before + requests + events|..]);
        ReportsParts(Err(InvalidEnumType), whole);
        return Err(result.error);
      }
      signed := result.value;
    }
    assert protocol[..|protocol|] == protocol;
    ReportsParts(Ok(signed), Uses(protocol, owner, name));
    if signed.Some? {
      return Ok(signed.value);
    }
    for i := 0 to |entries|
      invariant forall k :: 0 <= k < i ==> entries[k] >= 0
    {
      var entry := entries[i];
      if entry < 0 {
        assert entry in entries;
        return Ok(true);
      }
    }
    return Ok(false);
  }

  lemma NoUses()
    ensures Reports(Ok(None), [])
  {}
}
