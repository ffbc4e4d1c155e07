/** The packet statistics record (two unsigned 32-bit counters), how a hook
    verdict and a write to the control attribute change it, and the text the
    attribute shows for it. */
module Stats {
  import opened Kernel
  import opened Format

  const U32_LIMIT: int := 0x1_0000_0000

  type U32 = x: int | 0 <= x < U32_LIMIT

  /** `++` on a uint32_t: adds one, wrapping from the largest value to 0. */
  function Inc32(x: U32): (r: U32)
    ensures x < U32_LIMIT - 1 ==> r == x + 1
    ensures x == U32_LIMIT - 1 ==> r == 0
  {
    (x + 1) % U32_LIMIT
  }

  /** hw2secws_stats_t as a value. */
  datatype Counters = Counters(accepted: U32, dropped: U32)

  const Zero := Counters(0, 0)

  /** The counter update made when a hook returns verdict v. */
  function Step(c: Counters, v: Verdict): (r: Counters)
  {
    match v
    case Accept => c.(accepted := Inc32(c.accepted))
    case Drop => c.(dropped := Inc32(c.dropped))
  }

  /** The counters after hooks returned the verdicts vs, oldest first. */
  function Run(c: Counters, vs: seq<Verdict>): Counters
    decreases |vs|
  {
    if vs == [] then c else Step(Run(c, vs[..|vs| - 1]), vs[|vs| - 1])
  }

  function Count(vs: seq<Verdict>, v: Verdict): nat
    decreases |vs|
  {
    if vs == [] then 0 else Count(vs[..|vs| - 1], v) + (if vs[|vs| - 1] == v then 1 else 0)
  }

  lemma ModInc(x: int)
    ensures (x % U32_LIMIT + 1) % U32_LIMIT == (x + 1) % U32_LIMIT
  {
    var q := x / U32_LIMIT;
    assert x == q * U32_LIMIT + x % U32_LIMIT;
  }

  /** No increment is lost: each counter ends at its start value plus the
      number of matching verdicts, modulo 2^32; an accept never touches the
      drop counter, nor a drop the accept counter. */
  lemma {:induction false} RunCounts(c: Counters, vs: seq<Verdict>)
    ensures Run(c, vs).accepted == (c.accepted + Count(vs, Accept)) % U32_LIMIT
    ensures Run(c, vs).dropped == (c.dropped + Count(vs, Drop)) % U32_LIMIT
    decreases |vs|
  {
    if vs != [] {
      var init := vs[..|vs| - 1];
      RunCounts(c, init);
      ModInc(c.accepted + Count(init, Accept));
      ModInc(c.dropped + Count(init, Drop));
    }
  }

  // ---------------------------------------------------------------------
  // The read side of the control attribute.

  /** "%lu,%lu\n" applied to the two counters. */
  function StatsText(c: Counters): string
  {
    Decimal(c.accepted) + [','] + Decimal(c.dropped) + ['\n']
  }

  /** The text is the accepted count's digits, a comma, the dropped count's
      digits and a newline, both counts can be read back from it, and it is
      at most 22 characters long. */
  lemma StatsTextShape(c: Counters)
    ensures var s, k := StatsText(c), |Decimal(c.accepted)|;
      && 4 <= |s| <= 22
      && 1 <= k <= 10
      && s[k] == ','
      && s[|s| - 1] == '\n'
      && (forall i :: 0 <= i < |s| - 1 && i != k ==> IsDigit(s[i]))
      && s[..k] == Decimal(c.accepted)
      && s[k + 1..|s| - 1] == Decimal(c.dropped)
      && ParseDecimal(s[..k]) == c.accepted
      && ParseDecimal(s[k + 1..|s| - 1]) == c.dropped
  {
    var s, k := StatsText(c), |Decimal(c.accepted)|;
    DecimalLength32(c.accepted);
    DecimalLength32(c.dropped);
    assert s[..k] == Decimal(c.accepted);
    assert s[k + 1..|s| - 1] == Decimal(c.dropped);
    DecimalRoundTrip(c.accepted);
    DecimalRoundTrip(c.dropped);
  }

  /** Different counters never show the same text. */
  lemma StatsTextInjective(c: Counters, d: Counters)
    requires StatsText(c) == StatsText(d)
    ensures c == d
  {
    StatsTextShape(c);
    StatsTextShape(d);
    // the comma is the one non-digit before the newline, so both texts
    // split at the same place
    assert |Decimal(c.accepted)| == |Decimal(d.accepted)|;
  }

  // ---------------------------------------------------------------------
  // The write side of the control attribute.

  /** What a write does: reset both counters, or nothing. */
  datatype WriteAction = Reset | Ignore

  /** Only a non-empty write whose first byte is '0' resets; everything else
      (the empty write, '1', any other byte) is ignored. */
  function ParseWrite(buf: string): (a: WriteAction)
    ensures a == Reset <==> |buf| > 0 && buf[0] == '0'
  {
    if |buf| == 0 then Ignore else if buf[0] == '0' then Reset else Ignore
  }

  function ApplyWrite(c: Counters, a: WriteAction): Counters
  {
    if a == Reset then Zero else c
  }

  /** The byte count the write reports consumed. */
  function Consumed(buf: string): (n: nat)
    ensures n == 0 || n == |buf|
    ensures n == |buf| && |buf| > 0 <==> ParseWrite(buf) == Reset
  {
    if ParseWrite(buf) == Reset then |buf| else 0
  }

  /** Writing the same payload twice leaves the same counters as writing it
      once. */
  lemma WriteIdempotent(c: Counters, buf: string)
    ensures var a := ParseWrite(buf); ApplyWrite(ApplyWrite(c, a), a) == ApplyWrite(c, a)
  {
  }

  /** After a reset the attribute reads "0,0\n". */
  lemma ResetShowsZero(c: Counters, buf: string)
    requires |buf| > 0 && buf[0] == '0'
    ensures StatsText(ApplyWrite(c, ParseWrite(buf))) == "0,0\n"
  {
  }

  /** Any other write leaves what the attribute reads unchanged. */
  lemma IgnoredWriteKeepsText(c: Counters, buf: string)
    requires |buf| == 0 || buf[0] != '0'
    ensures ApplyWrite(c, ParseWrite(buf)) == c
    ensures StatsText(ApplyWrite(c, ParseWrite(buf))) == StatsText(c)
  {
  }
}
