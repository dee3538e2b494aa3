/** `compute_batch_cost` of lumen/platform/rating_engine.py: usage metrics to whole credits. */
module Pricing {
  import opened Prelude

  datatype Usage = Usage(messages: nat, tokens: nat, uptimeSec: nat, ramMb: nat)

  /** Credits per unit of each priced resource; `liveEstimate` is the model-aware fallback used when
      tokens carry no price of their own. */
  datatype Tariff = Tariff(message: nat, prompt1k: nat, hostHour: nat, ramMbHour: nat, liveEstimate: nat -> nat)

  datatype Breakdown = Breakdown(message: nat, token: nat, host: nat, ram: nat, total: nat)

  function TokenUnits(tokens: nat): nat {
    if tokens != 0 then (tokens + 999) / 1000 else 0
  }

  function TokenCredits(t: Tariff, tokens: nat): nat {
    var units := TokenUnits(tokens);
    var priced := if units != 0 then t.prompt1k * units else 0;
    if tokens > 0 && priced <= 0 then t.liveEstimate(tokens) else priced
  }

  function HostCredits(perHour: nat, uptimeSec: nat): nat {
    if uptimeSec > 0 && perHour != 0 then
      assert uptimeSec * perHour >= 0;
      Max(1, (uptimeSec * perHour + 3599) / 3600)
    else 0
  }

  /** The RAM term in exact arithmetic: max(1, int(mb_hours * price + 0.9999)). */
  function RamCredits(perMbHour: nat, ramMb: nat, uptimeSec: nat): int {
    var mbHours := if ramMb != 0 && uptimeSec != 0 then (ramMb * uptimeSec) as real / 3600.0 else 0.0;
    if perMbHour != 0 && mbHours > 0.0 then Max(1, Trunc(mbHours * perMbHour as real + 0.9999)) else 0
  }

  function Cost(t: Tariff, u: Usage): Breakdown {
    var message := t.message * u.messages;
    var token := TokenCredits(t, u.tokens);
    var host := HostCredits(t.hostHour, u.uptimeSec);
    RamIsExactCeiling(t.ramMbHour, u.ramMb, u.uptimeSec);
    var ram := RamCredits(t.ramMbHour, u.ramMb, u.uptimeSec);
    Breakdown(message, token, host, ram, message + token + host + ram)
  }

  // ------------------------------------------------------------------ rounding is a ceiling

  /** c is the least whole number of d-sized units that cover n. */
  predicate IsCeiling(c: int, n: nat, d: nat) {
    c * d >= n && (c - 1) * d < n
  }

  lemma CeilIsCeiling(n: nat, d: nat)
    requires d > 0
    ensures IsCeiling(Ceil(n, d), n, d)
  {
    DivBounds(n + d - 1, d);
    assert (Ceil(n, d) - 1) * d == Ceil(n, d) * d - d;
  }

  lemma CeilingUnique(c: int, c': int, n: nat, d: nat)
    requires d > 0 && IsCeiling(c, n, d) && IsCeiling(c', n, d)
    ensures c == c'
  {
    if c < c' {
      MulMono(c, c' - 1, d);
    } else if c' < c {
      MulMono(c', c - 1, d);
    }
  }

  /** Token units and host credits are the exact ceilings of tokens/1000 and uptime*price/3600. */
  lemma UnitsAreExactCeilings(perHour: nat, uptimeSec: nat, tokens: nat)
    ensures uptimeSec * perHour >= 0
    ensures IsCeiling(HostCredits(perHour, uptimeSec), uptimeSec * perHour, 3600)
    ensures HostCredits(perHour, uptimeSec) == Ceil(uptimeSec * perHour, 3600)
    ensures IsCeiling(TokenUnits(tokens), tokens, 1000)
    ensures TokenUnits(tokens) == Ceil(tokens, 1000)
  {
    MulMono(0, uptimeSec, perHour);
    CeilIsCeiling(uptimeSec * perHour, 3600);
    CeilIsCeiling(tokens, 1000);
    if uptimeSec > 0 && perHour > 0 {
      MulMono(1, uptimeSec, perHour);
    } else {
      assert uptimeSec * perHour == 0;
    }
  }

  /** Adding 0.9999 before truncating looks approximate but is an exact ceiling: a fractional part
      of a whole number over 3600 is never smaller than 1/3600, which exceeds 0.0001. */
  lemma RamIsExactCeiling(perMbHour: nat, ramMb: nat, uptimeSec: nat)
    ensures ramMb * uptimeSec >= 0 && ramMb * uptimeSec * perMbHour >= 0
    ensures IsCeiling(RamCredits(perMbHour, ramMb, uptimeSec), ramMb * uptimeSec * perMbHour, 3600)
    ensures RamCredits(perMbHour, ramMb, uptimeSec) == Ceil(ramMb * uptimeSec * perMbHour, 3600) >= 0
  {
    MulMono(0, ramMb, uptimeSec);
    var mb := ramMb * uptimeSec;
    MulMono(0, mb, perMbHour);
    var k := mb * perMbHour;
    CeilIsCeiling(k, 3600);
    if ramMb != 0 && uptimeSec != 0 && perMbHour != 0 {
      MulMono(1, ramMb, uptimeSec);
      MulMono(1, mb, perMbHour);
      var x := mb as real / 3600.0 * perMbHour as real;
      assert x == k as real / 3600.0;
      RoundUp(k);
    } else {
      assert k == 0;
    }
  }

  lemma RoundUp(k: nat)
    ensures IsCeiling((k as real / 3600.0 + 0.9999).Floor, k, 3600)
  {
    var c := (k as real / 3600.0 + 0.9999).Floor;
    var y := k as real / 3600.0;
    assert y * 3600.0 == k as real;
    assert c as real <= y + 0.9999 < c as real + 1.0;
    assert (c * 3600) as real == c as real * 3600.0;
  }

  /** The price of a batch, part by part: messages at their price, and exact ceilings for everything that is
      metered in larger units than it is reported in. */
  lemma CostIsExact(t: Tariff, u: Usage)
    ensures u.uptimeSec * t.hostHour >= 0 && u.ramMb * u.uptimeSec * t.ramMbHour >= 0
    ensures var b := Cost(t, u);
            && b.message == t.message * u.messages
            && b.token == (if t.prompt1k > 0 then t.prompt1k * Ceil(u.tokens, 1000)
                           else if u.tokens > 0 then t.liveEstimate(u.tokens) else 0)
            && b.host == Ceil(u.uptimeSec * t.hostHour, 3600)
            && b.ram == Ceil(u.ramMb * u.uptimeSec * t.ramMbHour, 3600)
            && b.total == b.message + b.token + b.host + b.ram
  {
    hide Ceil, HostCredits, RamCredits, TokenCredits, TokenUnits;
    UnitsAreExactCeilings(t.hostHour, u.uptimeSec, u.tokens);
    RamIsExactCeiling(t.ramMbHour, u.ramMb, u.uptimeSec);
    TokensAreExact(t, u.tokens);
  }

  lemma TokensAreExact(t: Tariff, tokens: nat)
    ensures TokenCredits(t, tokens) ==
      if t.prompt1k > 0 then t.prompt1k * Ceil(tokens, 1000) else if tokens > 0 then t.liveEstimate(tokens) else 0
  {
    hide Ceil;
    UnitsAreExactCeilings(0, 0, tokens);
    var units := TokenUnits(tokens);
    if t.prompt1k > 0 && units > 0 {
      MulMono(1, t.prompt1k, units);
    }
  }

  lemma CeilMono(n: nat, m: nat, d: nat)
    requires d > 0 && n <= m
    ensures Ceil(n, d) <= Ceil(m, d)
  {
    CeilIsCeiling(n, d);
    CeilIsCeiling(m, d);
    if Ceil(m, d) < Ceil(n, d) {
      MulMono(Ceil(m, d), Ceil(n, d) - 1, d);
    }
  }

  lemma ProductMono(a: nat, b: nat, c: nat, d: nat)
    requires a <= c && b <= d
    ensures 0 <= a * b <= c * d
  {
    MulMono(0, a, b);
    MulMono(a, c, b);
    MulMono(b, d, c);
  }

  /** Reporting more never costs less, where tokens have a price of their own. */
  lemma MoreUsageNeverCheaper(t: Tariff, u: Usage, v: Usage)
    requires u.messages <= v.messages && u.tokens <= v.tokens && u.uptimeSec <= v.uptimeSec && u.ramMb <= v.ramMb
    requires t.prompt1k > 0
    ensures Cost(t, u).total <= Cost(t, v).total
  {
    CostIsExact(t, u);
    CostIsExact(t, v);
    ProductMono(t.message, u.messages, t.message, v.messages);
    CeilMono(u.tokens, v.tokens, 1000);
    ProductMono(t.prompt1k, Ceil(u.tokens, 1000), t.prompt1k, Ceil(v.tokens, 1000));
    ProductMono(u.uptimeSec, t.hostHour, v.uptimeSec, t.hostHour);
    CeilMono(u.uptimeSec * t.hostHour, v.uptimeSec * t.hostHour, 3600);
    ProductMono(u.ramMb, u.uptimeSec, v.ramMb, v.uptimeSec);
    ProductMono(u.ramMb * u.uptimeSec, t.ramMbHour, v.ramMb * v.uptimeSec, t.ramMbHour);
    CeilMono(u.ramMb * u.uptimeSec * t.ramMbHour, v.ramMb * v.uptimeSec * t.ramMbHour, 3600);
    hide Cost, Ceil;
  }

  // ------------------------------------------------------------------ cutting a total into batches

  function Sum(parts: seq<nat>): nat {
    if parts == [] then 0 else parts[0] + Sum(parts[1..])
  }

  function SumCeil(parts: seq<nat>, d: nat): nat
    requires d > 0
  {
    if parts == [] then 0 else Ceil(parts[0], d) + SumCeil(parts[1..], d)
  }

  lemma CeilOfSum(a: nat, b: nat, d: nat)
    requires d > 0
    ensures Ceil(a + b, d) <= Ceil(a, d) + Ceil(b, d) <= Ceil(a + b, d) + 1
  {
    CeilIsCeiling(a, d);
    CeilIsCeiling(b, d);
    CeilIsCeiling(a + b, d);
    var x, y, z := Ceil(a, d), Ceil(b, d), Ceil(a + b, d);
    assert x * d + y * d == (x + y) * d;
    assert (x - 1) * d + (y - 1) * d == (x + y - 2) * d;
    if x + y < z {
      MulMono(x + y, z - 1, d);
    }
    if x + y > z + 1 {
      MulMono(z, x + y - 2, d);
    }
  }

  /** Cutting one usage total into n batches never lowers the rounded sum, and raises it by at most
      n - 1 units. */
  lemma {:induction false} SplittingCostsAtMostOnePerCut(parts: seq<nat>, d: nat)
    requires d > 0 && parts != []
    ensures Ceil(Sum(parts), d) <= SumCeil(parts, d) <= Ceil(Sum(parts), d) + |parts| - 1
    decreases |parts|
  {
    if |parts| == 1 {
      assert Sum(parts) == parts[0] + Sum([]);
      assert SumCeil(parts, d) == Ceil(parts[0], d) + SumCeil([], d);
    } else {
      SplittingCostsAtMostOnePerCut(parts[1..], d);
      CeilOfSum(parts[0], Sum(parts[1..]), d);
    }
  }

  function Ones(n: nat): seq<nat> {
    if n == 0 then [] else [1] + Ones(n - 1)
  }

  /** The bound is reached: n one-unit batches of a resource billed in units of d >= n. */
  lemma {:induction false} SplittingBoundIsReached(n: nat, d: nat)
    requires 1 <= n <= d
    ensures |Ones(n)| == n && Sum(Ones(n)) == n && SumCeil(Ones(n), d) == n
    ensures SumCeil(Ones(n), d) == Ceil(Sum(Ones(n)), d) + n - 1
  {
    CeilIsCeiling(1, d);
    CeilingUnique(Ceil(1, d), 1, 1, d);
    CeilIsCeiling(n, d);
    CeilingUnique(Ceil(n, d), 1, n, d);
    if n == 1 {
      assert Ones(1) == [1];
      assert Sum([1]) == 1 + Sum([]) && SumCeil([1], d) == 1 + SumCeil([], d);
    } else {
      SplittingBoundIsReached(n - 1, d);
      assert Ones(n)[1..] == Ones(n - 1);
    }
  }

  function HostTotal(perHour: nat, uptimes: seq<nat>): nat {
    if uptimes == [] then 0 else HostCredits(perHour, uptimes[0]) + HostTotal(perHour, uptimes[1..])
  }

  function Scaled(perHour: nat, uptimes: seq<nat>): (r: seq<nat>)
    ensures |r| == |uptimes|
  {
    if uptimes == [] then []
    else
      UnitsAreExactCeilings(perHour, uptimes[0], 0);
      [uptimes[0] * perHour] + Scaled(perHour, uptimes[1..])
  }

  function TokenTotal(batches: seq<nat>): nat {
    if batches == [] then 0 else TokenUnits(batches[0]) + TokenTotal(batches[1..])
  }

  lemma {:induction false} HostTotalIsSumCeil(perHour: nat, uptimes: seq<nat>)
    ensures HostTotal(perHour, uptimes) == SumCeil(Scaled(perHour, uptimes), 3600)
    ensures Sum(Scaled(perHour, uptimes)) == Sum(uptimes) * perHour
  {
    if uptimes != [] {
      HostTotalIsSumCeil(perHour, uptimes[1..]);
      UnitsAreExactCeilings(perHour, uptimes[0], 0);
      assert Scaled(perHour, uptimes)[1..] == Scaled(perHour, uptimes[1..]);
      assert (uptimes[0] + Sum(uptimes[1..])) * perHour == uptimes[0] * perHour + Sum(uptimes[1..]) * perHour;
    }
  }

  lemma {:induction false} TokenTotalIsSumCeil(batches: seq<nat>)
    ensures TokenTotal(batches) == SumCeil(batches, 1000)
  {
    if batches != [] {
      TokenTotalIsSumCeil(batches[1..]);
      UnitsAreExactCeilings(0, 0, batches[0]);
    }
  }

  /** The same for what the source actually charges: reporting uptime or tokens in n batches instead
      of one costs between nothing and n - 1 units more. */
  lemma BatchingUsage(perHour: nat, parts: seq<nat>)
    requires parts != []
    ensures HostCredits(perHour, Sum(parts)) <= HostTotal(perHour, parts)
            <= HostCredits(perHour, Sum(parts)) + |parts| - 1
    ensures TokenUnits(Sum(parts)) <= TokenTotal(parts) <= TokenUnits(Sum(parts)) + |parts| - 1
  {
    HostTotalIsSumCeil(perHour, parts);
    TokenTotalIsSumCeil(parts);
    UnitsAreExactCeilings(perHour, Sum(parts), Sum(parts));
    SplittingCostsAtMostOnePerCut(Scaled(perHour, parts), 3600);
    SplittingCostsAtMostOnePerCut(parts, 1000);
  }
}
