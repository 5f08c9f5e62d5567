/** Identity carried in the 64-bit `user_data` field of a completion. */
module Completion {
  import opened Outcomes
  import opened Bytes

  datatype Operation = Receive | Send | Cancel | Accept | AcceptCancel

  function Code(operation: Operation): byte {
    match operation
    case Receive => 1
    case Send => 2
    case Cancel => 3
    case Accept => 4
    case AcceptCancel => 5
  }

  function FromCode(code: byte): Option<Operation> {
    match code
    case 1 => Some(Receive)
    case 2 => Some(Send)
    case 3 => Some(Cancel)
    case 4 => Some(Accept)
    case 5 => Some(AcceptCancel)
    case _ => None
  }

  type u24 = x: int | 0 <= x < 0x100_0000

  datatype Token = Token(operation: Operation, slot: u24, generation: u32)

  /** The three fields occupy disjoint bits, so the source's shifts and ors are sums. */
  function Encode(token: Token): u64 {
    Code(token.operation) + 0x100 * (token.slot + 0x100_0000 * token.generation)
  }

  /** None stands for the source's `UnknownOperation`. */
  function Decode(value: u64): Option<Token> {
    match FromCode(value % 0x100)
    case None => None
    case Some(operation) =>
      Some(Token(operation, value / 0x100 % 0x100_0000, value / 0x100 / 0x100_0000))
  }

  /** Every token survives the trip through `user_data`. */
  lemma DecodeEncode(token: Token)
    ensures Decode(Encode(token)) == Some(token)
  {
    var rest := token.slot + 0x100_0000 * token.generation;
    var value := Encode(token);
    assert value % 0x100 == Code(token.operation) && value / 0x100 == rest;
  }

  /** Every accepted word is the image of exactly the token it decodes to. */
  lemma EncodeDecode(value: u64)
    ensures Decode(value).Some? <==> 1 <= value % 0x100 <= 5
    ensures Decode(value).Some? ==> Encode(Decode(value).value) == value
  {
    var rest := value / 0x100;
    assert value == value % 0x100 + 0x100 * rest;
    assert rest == rest % 0x100_0000 + 0x100_0000 * (rest / 0x100_0000);
  }

  predicate BelongsTo(token: Token, slot: u24, generation: u32) {
    token.slot == slot && token.generation == generation
  }

  /** The successor on a cycle that leaves out 0, the generation of storage nobody has held. */
  function NextGeneration(current: u32): u32 {
    var next := (current + 1) % 0x1_0000_0000;
    if next == 0 then 1 else next
  }

  /** Distinct generations before one repeats. */
  const PERIOD: nat := 0xffff_ffff

  /** The generation of storage that has been acquired `count` times. */
  function GenerationAfter(count: nat): (g: u32)
    ensures count > 0 ==> g > 0
  {
    if count == 0 then 0 else NextGeneration(GenerationAfter(count - 1))
  }

  lemma NextOnCycle(n: nat)
    ensures NextGeneration(n % 0xffff_ffff + 1) == (n + 1) % 0xffff_ffff + 1
  {
    var position := n % 0xffff_ffff;
    assert (n + 1) % 0xffff_ffff == if position == 0xffff_fffe then 0 else position + 1;
  }

  lemma {:induction false} GenerationIsCyclic(count: nat)
    requires 0 < count
    ensures GenerationAfter(count) == (count - 1) % PERIOD + 1
  {
    if count == 1 {
      assert GenerationAfter(0) == 0;
    } else {
      GenerationIsCyclic(count - 1);
      NextOnCycle(count - 2);
    }
  }

  lemma EqualRemainders(a: nat, b: nat)
    requires a <= b
    ensures a % 0xffff_ffff == b % 0xffff_ffff <==> (b - a) % 0xffff_ffff == 0
  {
    var gap := b - a;
    if gap % 0xffff_ffff == 0 {
      assert b == a + 0xffff_ffff * (gap / 0xffff_ffff);
    }
    if a % 0xffff_ffff == b % 0xffff_ffff {
      assert gap == 0xffff_ffff * (b / 0xffff_ffff - a / 0xffff_ffff);
    }
  }

  /** Two tenancies share a generation exactly when a whole number of periods apart. */
  lemma SameGeneration(earlier: nat, later: nat)
    requires 0 < earlier <= later
    ensures GenerationAfter(earlier) == GenerationAfter(later) <==> (later - earlier) % PERIOD == 0
  {
    var a, b := earlier - 1, later - 1;
    assert GenerationAfter(earlier) == a % PERIOD + 1 by { GenerationIsCyclic(earlier); }
    assert GenerationAfter(later) == b % PERIOD + 1 by { GenerationIsCyclic(later); }
    assert a % PERIOD == b % PERIOD <==> (b - a) % PERIOD == 0 by { EqualRemainders(a, b); }
    assert b - a == later - earlier;
  }

  /** A token from an earlier tenancy cannot match before 2^32-1 further acquisitions. */
  lemma StaleGenerationsDiffer(earlier: nat, later: nat)
    requires 0 < earlier < later < earlier + PERIOD
    ensures GenerationAfter(earlier) != GenerationAfter(later)
  {
    SameGeneration(earlier, later);
  }
}
