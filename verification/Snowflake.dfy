/** The bit fields of a 64-bit id. Numbers stand for `uint64_t`; `&` and `>>` are spelled out on their binary
    digits. */
module Snowflake {
  import opened Prelude

  function Pow2(k: nat): (p: nat)
    ensures p > 0
  {
    if k == 0 then 1 else 2 * Pow2(k - 1)
  }

  /** `x & y`. */
  function And(x: nat, y: nat): nat {
    if x == 0 || y == 0 then 0 else (x % 2) * (y % 2) + 2 * And(x / 2, y / 2)
  }

  /** `x >> k`. */
  function Shr(x: nat, k: nat): nat {
    if k == 0 then x else Shr(x / 2, k - 1)
  }

  const DISCORD_EPOCH: nat := 1420070400000

  datatype Fields = Fields(timestamp: nat, unixTimestamp: nat, workerId: nat, processId: nat, increment: nat)

  /** `ld_json_pack_snowflake`. */
  function Unpack(flake: nat): Fields {
    Fields(Shr(flake, 22),
           (Shr(flake, 22) + DISCORD_EPOCH) % TWO_64,
           Shr(And(flake, 0x3E0000), 17),
           Shr(And(flake, 0x1F000), 12),
           And(flake, 0xFFF))
  }

  /* ---- masks and shifts as division ---- */

  lemma {:induction false} ShrDivides(x: nat, k: nat)
    ensures Shr(x, k) == x / Pow2(k)
  {
    if k > 0 {
      ShrDivides(x / 2, k - 1);
      DivDiv(x, Pow2(k - 1));
    }
  }

  lemma DivDiv(x: nat, m: nat)
    requires m > 0
    ensures (x / 2) / m == x / (2 * m)
    ensures x % (2 * m) == 2 * ((x / 2) % m) + x % 2
  {
    var h := x / 2;
    var q, r := h / m, h % m;
    assert x == 2 * h + x % 2;
    assert h == m * q + r;
    assert x == (2 * m) * q + (2 * r + x % 2);
    DivModUnique(x, 2 * m, q, 2 * r + x % 2);
  }

  lemma MulMonotone(d: int, a: int, b: int)
    requires d > 0 && a >= b
    ensures d * a >= d * b
  {
  }

  lemma DivModUnique(x: int, d: int, q: int, r: int)
    requires d > 0 && 0 <= r < d && x == d * q + r
    ensures x / d == q && x % d == r
  {
    var q' := x / d;
    if q' >= q + 1 {
      MulMonotone(d, q', q + 1);
    } else if q >= q' + 1 {
      MulMonotone(d, q, q' + 1);
    }
  }

  lemma DivChain(x: nat, a: nat, b: nat)
    requires a > 0 && b > 0
    ensures x / (a * b) == x / a / b
    ensures x == a * (b * (x / (a * b)) + x / a % b) + x % a
  {
    var y := x / a;
    var q, r := y / b, y % b;
    assert x == a * (b * q + r) + x % a;
    assert a * (b * q + r) == a * b * q + a * r;
    MulMonotone(a, b - 1, r);
    assert a * (b - 1) == a * b - a;
    DivModUnique(x, a * b, q, a * r + x % a);
  }

  /** A mask of n ones takes the remainder. */
  lemma {:induction false} LowMask(x: nat, n: nat)
    ensures And(x, Pow2(n) - 1) == x % Pow2(n)
  {
    if n > 0 {
      LowMask(x / 2, n - 1);
      DivDiv(x, Pow2(n - 1));
      assert (Pow2(n) - 1) / 2 == Pow2(n - 1) - 1 && (Pow2(n) - 1) % 2 == 1;
    }
  }

  /** A mask of n ones, shifted by k. */
  function Mask(n: nat, k: nat): nat {
    if k == 0 then Pow2(n) - 1 else 2 * Mask(n, k - 1)
  }

  /** It picks n bits from bit k on. */
  lemma {:induction false} FieldMask(x: nat, n: nat, k: nat)
    ensures Shr(And(x, Mask(n, k)), k) == Shr(x, k) % Pow2(n)
  {
    if k == 0 {
      LowMask(x, n);
    } else {
      FieldMask(x / 2, n, k - 1);
      AndEven(x, Mask(n, k - 1));
    }
  }

  lemma AndEven(x: nat, m: nat)
    ensures And(x, 2 * m) == 2 * And(x / 2, m)
  {
  }

  lemma Constants()
    ensures Pow2(5) == 0x20 && Pow2(12) == 0x1000 && Pow2(17) == 0x20000 && Pow2(22) == 0x40_0000
    ensures Mask(5, 12) == 0x1F000 && Mask(5, 17) == 0x3E0000
  {
  }

  /** What the masks and shifts of the decoder compute. */
  lemma FieldsAreBits(flake: nat)
    requires flake < TWO_64
    ensures var f := Unpack(flake);
      && f.timestamp == flake / 0x40_0000
      && f.workerId == flake / 0x20000 % 0x20
      && f.processId == flake / 0x1000 % 0x20
      && f.increment == flake % 0x1000
      && f.unixTimestamp == f.timestamp + DISCORD_EPOCH
  {
    Constants();
    ShrDivides(flake, 22);
    ShrDivides(flake, 17);
    ShrDivides(flake, 12);
    FieldMask(flake, 5, 17);
    FieldMask(flake, 5, 12);
    LowMask(flake, 12);
  }

  /* ---- what the fields mean ---- */

  predicate InRange(timestamp: nat, workerId: nat, processId: nat, increment: nat) {
    timestamp < 0x400_0000_0000 && workerId < 0x20 && processId < 0x20 && increment < 0x1000
  }

  /** The id with the given fields: 42, 5, 5 and 12 bits, from the top. */
  function Pack(timestamp: nat, workerId: nat, processId: nat, increment: nat): nat {
    timestamp * 0x40_0000 + workerId * 0x20000 + processId * 0x1000 + increment
  }

  /** Decoding is a bijection: every 64-bit id decodes to fields in range that put it together again ... */
  lemma IdFromFields(flake: nat)
    requires flake < TWO_64
    ensures var f := Unpack(flake);
      && InRange(f.timestamp, f.workerId, f.processId, f.increment)
      && Pack(f.timestamp, f.workerId, f.processId, f.increment) == flake
  {
    FieldsAreBits(flake);
    DivChain(flake, 0x1000, 0x20);
    DivChain(flake, 0x20000, 0x20);
  }

  /** ... and all fields in range are those of exactly one id. */
  lemma FieldsFromId(timestamp: nat, workerId: nat, processId: nat, increment: nat)
    requires InRange(timestamp, workerId, processId, increment)
    ensures var flake := Pack(timestamp, workerId, processId, increment);
      && flake < TWO_64
      && Unpack(flake) == Fields(timestamp, timestamp + DISCORD_EPOCH, workerId, processId, increment)
  {
    var flake := Pack(timestamp, workerId, processId, increment);
    FieldsAreBits(flake);
    DivModUnique(flake, 0x1000, timestamp * 0x400 + workerId * 0x20 + processId, increment);
    DivModUnique(flake, 0x20000, timestamp * 0x20 + workerId, processId * 0x1000 + increment);
    DivModUnique(flake, 0x40_0000, timestamp, workerId * 0x20000 + processId * 0x1000 + increment);
    DivModUnique(flake / 0x1000, 0x20, timestamp * 0x20 + workerId, processId);
    DivModUnique(flake / 0x20000, 0x20, timestamp, workerId);
  }

  /** The epoch conversion of `ld_json_read_timestamp`, from whole Unix seconds. */
  function DiscordEpoch(unixSeconds: nat): nat {
    (unixSeconds * 1000 - DISCORD_EPOCH) % TWO_64
  }

  lemma DivMonotone(a: nat, b: nat, d: nat)
    requires d > 0 && a <= b
    ensures a / d <= b / d
  {
    if a / d >= b / d + 1 {
      MulMonotone(d, a / d, b / d + 1);
    }
  }

  /** To Unix time and back. */
  lemma EpochRoundTrip(timestamp: nat)
    requires timestamp + DISCORD_EPOCH < TWO_64
    ensures var e := DiscordEpoch((timestamp + DISCORD_EPOCH) / 1000);
      e <= timestamp < e + 1000
  {
    var q := timestamp / 1000;
    DivModUnique(timestamp + DISCORD_EPOCH, 1000, q + 1420070400, timestamp % 1000);
  }

  lemma TimeOfId(flake: nat)
    requires flake < TWO_64
    ensures Unpack(flake).timestamp == flake / 0x40_0000
    ensures Unpack(flake).unixTimestamp == flake / 0x40_0000 + 1420070400000 < TWO_64
  {
    FieldsAreBits(flake);
  }

  /** Larger ids are never older, the shift to Unix time never wraps around, and converting that time back in
      whole seconds loses less than a second. */
  lemma TimestampsAreTime(a: nat, b: nat)
    requires a <= b < TWO_64
    ensures Unpack(a).timestamp <= Unpack(b).timestamp && Unpack(a).unixTimestamp <= Unpack(b).unixTimestamp
    ensures Unpack(a).unixTimestamp == Unpack(a).timestamp + 1420070400000
    ensures var e := DiscordEpoch(Unpack(a).unixTimestamp / 1000);
      e <= Unpack(a).timestamp < e + 1000
  {
    TimeOfId(a);
    TimeOfId(b);
    DivMonotone(a, b, 0x40_0000);
    EpochRoundTrip(a / 0x40_0000);
  }
}
