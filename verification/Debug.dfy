/** Detection of `WAYLAND_DEBUG` in a process environment that arrives in pieces. Bytes are characters here. */
module Debug {
  import opened Outcomes

  datatype Tracing = Disabled | Client | Server | Both

  const PREFIX := "WAYLAND_DEBUG="
  const CLIENT := "client"
  const SERVER := "server"

  // ---- the simple specification

  ghost predicate EndsWith(text: string, suffix: string) {
    |suffix| <= |text| && text[|text| - |suffix|..] == suffix
  }

  ghost predicate Contains(text: string, needle: string) {
    exists n :: 0 <= n <= |text| && EndsWith(text[..n], needle)
  }

  ghost function ParseValue(value: string): Tracing {
    if '1' in value || (Contains(value, CLIENT) && Contains(value, SERVER)) then Both
    else if Contains(value, CLIENT) then Client
    else if Contains(value, SERVER) then Server
    else Disabled
  }

  /** Where the first entry of an environment block ends. */
  function EntryLength(block: string): (n: nat)
    ensures n <= |block| && '\0' !in block[..n]
    ensures n < |block| ==> block[n] == '\0'
  {
    if block == [] || block[0] == '\0' then 0 else 1 + EntryLength(block[1..])
  }

  ghost function Decision(entry: string): Option<Tracing> {
    if PREFIX <= entry then Some(ParseValue(entry[|PREFIX|..])) else None
  }

  /** The first entry that starts with the prefix decides. */
  ghost function Detect(block: string): Tracing
    decreases |block|
  {
    var n := EntryLength(block);
    match Decision(block[..n])
    case Some(decided) => decided
    case None => if n == |block| then Disabled else Detect(block[n + 1..])
  }

  // ---- matching a needle one byte at a time

  /** No proper part of a beginning of the needle is both its beginning and its end. */
  ghost predicate Borderless(needle: string) {
    needle != [] && forall i, k :: 0 < k < i <= |needle| ==> !EndsWith(needle[..i], needle[..k])
  }

  /** `index` is the length of the longest beginning of the needle at the end of the text. */
  ghost predicate Longest(text: string, needle: string, index: nat) {
    && index < |needle|
    && EndsWith(text, needle[..index])
    && forall j :: index < j <= |needle| ==> !EndsWith(text, needle[..j])
  }

  lemma UniqueHeadIsBorderless(needle: string)
    requires needle != [] && forall i :: 0 < i < |needle| ==> needle[i] != needle[0]
    ensures Borderless(needle)
  {
    forall i, k | 0 < k < i <= |needle| ensures !EndsWith(needle[..i], needle[..k]) {
      assert needle[..i][i - k..][0] == needle[i - k] && needle[..k][0] == needle[0];
    }
  }

  lemma NeedlesAreBorderless()
    ensures Borderless(CLIENT) && Borderless(SERVER)
  {
    UniqueHeadIsBorderless(CLIENT);
    UniqueHeadIsBorderless(SERVER);
  }

  lemma EndsWithOneMore(text: string, b: char, needle: string, j: nat)
    requires 0 < j <= |needle|
    ensures EndsWith(text + [b], needle[..j]) <==> EndsWith(text, needle[..j - 1]) && b == needle[j - 1]
  {
    var longer := text + [b];
    if |longer| >= j {
      assert longer[|longer| - j..] == text[|text| - (j - 1)..] + [b];
      assert needle[..j] == needle[..j - 1] + [needle[j - 1]];
    }
  }

  lemma {:induction false} ContainsOneMore(text: string, b: char, needle: string)
    requires needle != []
    ensures Contains(text + [b], needle) <==> Contains(text, needle) || EndsWith(text + [b], needle)
  {
    var longer := text + [b];
    assert longer[..|longer|] == longer;
    forall n | 0 <= n <= |text| ensures longer[..n] == text[..n] {}
    if Contains(longer, needle) && !EndsWith(longer, needle) {
      var n :| 0 <= n <= |longer| && EndsWith(longer[..n], needle);
      assert n <= |text| && EndsWith(text[..n], needle);
    }
    if Contains(text, needle) {
      var n :| 0 <= n <= |text| && EndsWith(text[..n], needle);
      assert EndsWith(longer[..n], needle);
    }
  }

  /** A beginning shorter than the longest one at the end of the text would be a border of it. */
  lemma NoShorter(text: string, needle: string, index: nat, k: nat)
    requires Borderless(needle) && Longest(text, needle, index) && 0 < k < index
    ensures !EndsWith(text, needle[..k])
  {
    assert !EndsWith(needle[..index], needle[..k]);
    assert text[|text| - k..] == text[|text| - index..][index - k..];
  }

  /** The one-byte restart is right: after a byte that does not continue the match, the longest beginning at
      the end of the text is that byte alone or nothing. */
  lemma RestartIsRight(text: string, needle: string, index: nat, b: char)
    requires Borderless(needle) && Longest(text, needle, index) && b != needle[index]
    ensures !EndsWith(text + [b], needle)
    ensures Longest(text + [b], needle, if b == needle[0] then 1 else 0)
  {
    var next := if b == needle[0] then 1 else 0;
    forall j | next < j <= |needle| ensures !EndsWith(text + [b], needle[..j]) {
      EndsWithOneMore(text, b, needle, j);
      if 0 < j - 1 < index {
        NoShorter(text, needle, index, j - 1);
      }
    }
    if next == 1 {
      EndsWithOneMore(text, b, needle, 1);
    }
    assert needle[..|needle|] == needle;
    EndsWithOneMore(text, b, needle, |needle|);
  }

  lemma ContinuationIsRight(text: string, needle: string, index: nat, b: char)
    requires Longest(text, needle, index) && b == needle[index]
    ensures index + 1 == |needle| <==> EndsWith(text + [b], needle)
    ensures index + 1 < |needle| ==> Longest(text + [b], needle, index + 1)
  {
    EndsWithOneMore(text, b, needle, index + 1);
    assert needle[..|needle|] == needle;
    forall j | index + 1 < j <= |needle| ensures !EndsWith(text + [b], needle[..j]) {
      EndsWithOneMore(text, b, needle, j);
    }
  }

  /** One byte: true exactly when it completes the needle for the first time. */
  method Match(b: char, needle: string, index: nat, ghost text: string) returns (found: bool, next: nat)
    requires Borderless(needle) && |needle| > 1 && Longest(text, needle, index) && !Contains(text, needle)
    ensures found <==> Contains(text + [b], needle)
    ensures !found ==> Longest(text + [b], needle, next)
  {
    ContainsOneMore(text, b, needle);
    if b == needle[index] {
      ContinuationIsRight(text, needle, index, b);
      next := index + 1;
      if next == |needle| {
        return true, 0;
      }
    } else {
      RestartIsRight(text, needle, index, b);
      next := if b == needle[0] then 1 else 0;
    }
    return false, next;
  }

  // ---- the parser

  /** A needle's flag, and its index while the flag is down, for a value read so far. */
  ghost predicate Tracks(value: string, needle: string, has: bool, index: nat) {
    has == Contains(value, needle) && (!has ==> Longest(value, needle, index))
  }

  lemma NothingMatched(needle: string)
    requires needle != []
    ensures Tracks("", needle, false, 0)
  {}

  /** `has or match(...)`: once found, a needle is not looked for again. */
  method Track(b: char, needle: string, has: bool, index: nat, ghost value: string) returns (found: bool, next: nat)
    requires Borderless(needle) && |needle| > 1 && Tracks(value, needle, has, index)
    ensures Tracks(value + [b], needle, found, next)
  {
    hide Contains, Longest, Borderless;
    ContainsOneMore(value, b, needle);
    found, next := has, index;
    if !has {
      found, next := Match(b, needle, index, value);
    }
  }

  class EnvironmentParser {
    var prefixIndex: Option<nat>
    var target: bool
    var clientIndex: nat
    var serverIndex: nat
    var hasClient: bool
    var hasServer: bool
    var hasOne: bool
    /** The entry in progress. */
    ghost var entry: string

    ghost function Value(): string
      reads this
      requires PREFIX <= entry
    {
      entry[|PREFIX|..]
    }

    ghost predicate Valid()
      reads this
    {
      && '\0' !in entry
      && target == (PREFIX <= entry)
      && (prefixIndex.Some? ==> |entry| < |PREFIX| && entry == PREFIX[..|entry|] && prefixIndex.value == |entry|)
      && (prefixIndex.None? && !target ==> !(entry <= PREFIX))
      && if target then
           && hasOne == ('1' in Value())
           && Tracks(Value(), CLIENT, hasClient, clientIndex)
           && Tracks(Value(), SERVER, hasServer, serverIndex)
         else !hasOne && !hasClient && !hasServer && clientIndex == 0 && serverIndex == 0
    }

    constructor ()
      ensures Valid() && entry == ""
    {
      prefixIndex, target, clientIndex, serverIndex := Some(0), false, 0, 0;
      hasClient, hasServer, hasOne, entry := false, false, false, "";
    }

    /** `parser.* = .{}` */
    method Reset()
      modifies this
      ensures Valid() && entry == ""
    {
      prefixIndex, target, clientIndex, serverIndex := Some(0), false, 0, 0;
      hasClient, hasServer, hasOne, entry := false, false, false, "";
    }

    method Result() returns (r: Tracing)
      requires Valid() && target
      ensures r == ParseValue(Value())
    {
      if hasOne || (hasClient && hasServer) {
        return Both;
      }
      return if hasClient then Client else if hasServer then Server else Disabled;
    }

    method Finish() returns (r: Tracing)
      requires Valid()
      ensures r == Detect(entry)
    {
      WholeEntry(entry, "");
      assert entry + "" == entry;
      if !target {
        return Disabled;
      }
      r := Result();
    }

    /** A byte before the value of the variable. */
    method ConsumePrefix(b: char)
      requires Valid() && !target && b != '\0'
      modifies this
      ensures Valid() && entry == old(entry) + [b]
    {
      entry := entry + [b];
      if prefixIndex.None? {
        return;
      }
      var index := prefixIndex.value;
      assert entry[..|entry| - 1] == PREFIX[..index] && PREFIX[..index + 1] == PREFIX[..index] + [PREFIX[index]];
      if b != PREFIX[index] {
        prefixIndex := None;
      } else if index + 1 == |PREFIX| {
        target := true;
        prefixIndex := None;
        NothingMatched(CLIENT);
        NothingMatched(SERVER);
      } else {
        prefixIndex := Some(index + 1);
      }
    }

    /** A byte of the value. */
    method ConsumeValue(b: char)
      requires Valid() && target && b != '\0'
      modifies this
      ensures Valid() && entry == old(entry) + [b] && target
    {
      hide Tracks, Borderless;
      ghost var value := Value();
      entry := entry + [b];
      assert Value() == value + [b];
      NeedlesAreBorderless();
      hasOne := hasOne || b == '1';
      hasClient, clientIndex := Track(b, CLIENT, hasClient, clientIndex, value);
      hasServer, serverIndex := Track(b, SERVER, hasServer, serverIndex, value);
    }

    /** Either the decision has been reached, whatever follows; or what was read so far counts only through
        the entry in progress. */
    method Consume(bytes: string, ghost more: string) returns (r: Option<Tracing>)
      requires Valid()
      modifies this
      ensures Detect(old(entry) + bytes + more) ==
              match r case Some(decided) => decided case None => Detect(entry + more)
      ensures r.None? ==> Valid()
    {
      hide Detect, ParseValue, Tracks, EnvironmentParser.Valid;
      assert bytes[0..] == bytes;
      for i := 0 to |bytes|
        invariant Valid() && Detect(old(entry) + bytes + more) == Detect(entry + bytes[i..] + more)
      {
        var b, tail := bytes[i], bytes[i + 1..] + more;
        assert entry + bytes[i..] + more == entry + ([b] + tail);
        if b == '\0' {
          Clean();
          WholeEntry(entry, [b] + tail);
          if target {
            var decided := Result();
            return Some(decided);
          }
          Reset();
          assert ([b] + tail)[1..] == entry + bytes[i + 1..] + more;
          continue;
        }
        assert entry + ([b] + tail) == (entry + [b]) + bytes[i + 1..] + more;
        if !target {
          ConsumePrefix(b);
        } else {
          ConsumeValue(b);
        }
      }
      assert entry + bytes[|bytes|..] + more == entry + more;
      return None;
    }

    lemma Clean()
      requires Valid()
      ensures '\0' !in entry && target == (PREFIX <= entry)
    {}
  }

  /** A complete entry at the front of a block decides, or is skipped. */
  lemma WholeEntry(entry: string, rest: string)
    requires '\0' !in entry && (rest == [] || rest[0] == '\0')
    ensures Detect(entry + rest) ==
            match Decision(entry)
            case Some(decided) => decided
            case None => if rest == [] then Disabled else Detect(rest[1..])
  {
    hide Decision, EntryLength;
    EntryEnds(entry, rest);
    var block, n := entry + rest, |entry|;
    assert block[..n] == entry;
    if rest != [] {
      assert block[n + 1..] == rest[1..];
    }
  }

  lemma {:induction false} EntryEnds(entry: string, rest: string)
    requires '\0' !in entry && (rest == [] || rest[0] == '\0')
    ensures EntryLength(entry + rest) == |entry|
    decreases |entry|
  {
    if entry == [] {
      assert entry + rest == rest;
    } else {
      assert (entry + rest)[1..] == entry[1..] + rest;
      EntryEnds(entry[1..], rest);
    }
  }

  ghost function Joined(chunks: seq<string>): string {
    if chunks == [] then "" else chunks[0] + Joined(chunks[1..])
  }

  /** The streaming matcher is the simple one: for every environment block and every way it is read. */
  method DetectLaunchEnvironment(chunks: seq<string>) returns (r: Tracing)
    ensures r == Detect(Joined(chunks))
  {
    hide Detect, EnvironmentParser.Valid;
    var parser := new EnvironmentParser();
    assert chunks[0..] == chunks && parser.entry + Joined(chunks) == Joined(chunks);
    for i := 0 to |chunks|
      invariant parser.Valid() && Detect(Joined(chunks)) == Detect(parser.entry + Joined(chunks[i..]))
    {
      assert chunks[i..][1..] == chunks[i + 1..];
      assert parser.entry + Joined(chunks[i..]) == parser.entry + chunks[i] + Joined(chunks[i + 1..]);
      var detected := parser.Consume(chunks[i], Joined(chunks[i + 1..]));
      if detected.Some? {
        return detected.value;
      }
    }
    assert parser.entry + Joined([]) == parser.entry;
    r := parser.Finish();
  }
}
