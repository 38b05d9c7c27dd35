/**
 * formatBytes from the dashboard: picks a unit among B, KB, MB, GB, TB by
 * repeated integer division by 1024 and shows the quotient scaled to that
 * unit. The number is kept as an exact real; its one-decimal rendering is
 * not modelled.
 */
module Format {
  import opened Counters

  const Suffixes: seq<string> := ["B", "KB", "MB", "GB", "TB"]

  /** The size of unit k in bytes. */
  function Pow1024(k: nat): (r: nat)
    ensures r >= 1
  {
    if k == 0 then 1 else 1024 * Pow1024(k - 1)
  }

  lemma {:induction false} Pow1024Monotone(j: nat, k: nat)
    requires j <= k
    ensures Pow1024(j) <= Pow1024(k)
    decreases k
  {
    if j < k {
      Pow1024Monotone(j, k - 1);
    }
  }

  /** The largest unit among 0..k whose size does not exceed the count. */
  function UnitFrom(bytes: nat, k: nat): (i: nat)
    ensures i <= k
    ensures i == 0 || Pow1024(i) <= bytes
    ensures i == k || bytes < Pow1024(i + 1)
  {
    if k == 0 || Pow1024(k) <= bytes then k else UnitFrom(bytes, k - 1)
  }

  /** The unit a byte count should be shown in: the largest one, up to
      TB, that the count reaches. */
  function UnitOf(bytes: nat): (i: nat)
    ensures i < |Suffixes|
    ensures i == 0 || Pow1024(i) <= bytes
    ensures i == 4 || bytes < Pow1024(i + 1)
  {
    UnitFrom(bytes, 4)
  }

  /** The figure displayed for unit i: the count itself for bytes, and for
      a larger unit the count truncated to the unit below, divided by 1024. */
  function ScaledValue(bytes: nat, i: nat): real
  {
    if i == 0 then bytes as real else (bytes / Pow1024(i - 1)) as real / 1024.0
  }

  /** The unit index the code as written ends up with: its guard only lets
      counts above 1024 into the loop. */
  function AsWrittenIndex(bytes: nat): nat
  {
    if bytes > 1024 then UnitOf(bytes) else 0
  }

  lemma {:induction false} UnitFromIs(bytes: nat, k: nat, i: nat)
    requires i <= k
    requires i == 0 || Pow1024(i) <= bytes
    requires i == k || bytes < Pow1024(i + 1)
    ensures UnitFrom(bytes, k) == i
    decreases k
  {
    if i < k {
      Pow1024Monotone(i + 1, k);
      if k - 1 > i {
        UnitFromIs(bytes, k - 1, i);
      }
    }
  }

  /** UnitOf is the only index meeting its postconditions. */
  lemma UnitOfIs(bytes: nat, i: nat)
    requires i <= 4
    requires i == 0 || Pow1024(i) <= bytes
    requires i == 4 || bytes < Pow1024(i + 1)
    ensures UnitOf(bytes) == i
  {
    UnitFromIs(bytes, 4, i);
  }

  /** x / d is the only quotient with a remainder in 0..d-1. */
  lemma DivUnique(x: nat, d: nat, b: nat, r: nat)
    requires d > 0 && r < d && x == d * b + r
    ensures x / d == b
  {
    var q := x / d;
    assert x == d * q + x % d;
    if q < b {
      assert d * b >= d * (q + 1) by { MulMonotone(d, q + 1, b); }
    } else if q > b {
      assert d * q >= d * (b + 1) by { MulMonotone(d, b + 1, q); }
    }
  }

  lemma MulMonotone(d: nat, a: nat, b: nat)
    requires a <= b
    ensures d * a <= d * b
  {
  }

  lemma DivDiv(x: nat, p: nat, q: nat)
    requires p > 0 && q > 0
    ensures x / p / q == x / (p * q)
  {
    var a := x / p;
    var b := a / q;
    assert x == p * a + x % p;
    assert a == q * b + a % q;
    assert p * a == p * (q * b) + p * (a % q);
    assert p * (q * b) == (p * q) * b;
    MulMonotone(p, a % q, q - 1);
    assert p * (q - 1) == p * q - p;
    DivUnique(x, p * q, b, p * (a % q) + x % p);
  }

  lemma DivAtLeast(x: nat, p: nat, q: nat)
    requires p > 0
    ensures x / p >= q <==> x >= p * q
  {
    assert x == p * (x / p) + x % p;
    if x / p >= q {
      MulMonotone(p, q, x / p);
    } else {
      MulMonotone(p, x / p + 1, q);
    }
  }

  /** The for-loop: divide by 1024 while the quotient reaches 1024 again
      and the unit is below TB, remembering the last quotient / 1024. */
  method ScaleDown(bytes: U64) returns (value: real, i: nat)
    ensures i == UnitOf(bytes)
    ensures value == ScaledValue(bytes, i)
  {
    var b := bytes;
    value := bytes as real;
    i := 0;
    while b / 1024 > 0 && i < 4
      invariant i <= 4
      invariant b == bytes / Pow1024(i)
      invariant i == 0 || Pow1024(i) <= bytes
      invariant value == ScaledValue(bytes, i)
    {
      value := b as real / 1024.0;
      DivAtLeast(bytes, Pow1024(i), 1024);
      DivDiv(bytes, Pow1024(i), 1024);
      i, b := i + 1, b / 1024;
    }
    if i < 4 {
      DivAtLeast(bytes, Pow1024(i), 1024);
    }
    UnitOfIs(bytes, i);
  }

  /** formatBytes as written: value and suffix of the rendered string. */
  method FormatBytes(bytes: U64) returns (value: real, suffix: string)
    ensures suffix == Suffixes[AsWrittenIndex(bytes)]
    ensures value == ScaledValue(bytes, AsWrittenIndex(bytes))
    ensures bytes <= 1024 ==> suffix == "B" && value == bytes as real
  {
    var i := 0;
    value := bytes as real;
    if bytes > 1024 {
      value, i := ScaleDown(bytes);
    }
    suffix := Suffixes[i];
  }

  /** formatBytes without the `bytes > 1024` guard: the loop alone already
      leaves counts below 1024 in bytes. */
  method FormatBytesCorrected(bytes: U64) returns (value: real, suffix: string)
    ensures suffix == Suffixes[UnitOf(bytes)]
    ensures value == ScaledValue(bytes, UnitOf(bytes))
    ensures UnitOf(bytes) < 4 ==> value < 1024.0
    ensures UnitOf(bytes) > 0 ==> value >= 1.0
  {
    var i;
    value, i := ScaleDown(bytes);
    suffix := Suffixes[i];
    ShownValueInRange(bytes);
  }

  /** In the unit UnitOf picks, the figure shown is at least 1 (above
      bytes) and below 1024 (below TB). */
  lemma ShownValueInRange(bytes: nat)
    ensures UnitOf(bytes) < 4 ==> ScaledValue(bytes, UnitOf(bytes)) < 1024.0
    ensures UnitOf(bytes) > 0 ==> ScaledValue(bytes, UnitOf(bytes)) >= 1.0
  {
    var i := UnitOf(bytes);
    if i > 0 {
      var p := Pow1024(i - 1);
      var q := bytes / p;
      DivAtLeast(bytes, p, 1024);
      assert q >= 1024;
      if i < 4 {
        assert Pow1024(i + 1) == p * (1024 * 1024);
        DivAtLeast(bytes, p, 1024 * 1024);
        assert q < 1024 * 1024;
      }
    }
  }

  /** The guard `bytes > 1024` departs from the unit the loop would choose
      at exactly one count: 1024 bytes are shown as "1024.0 B", a figure of
      1024 in a unit the count already fills. */
  lemma AsWrittenDiffersOnlyAtKilo(bytes: nat)
    ensures AsWrittenIndex(bytes) != UnitOf(bytes) <==> bytes == 1024
    ensures AsWrittenIndex(1024) == 0 && ScaledValue(1024, 0) == 1024.0 && UnitOf(1024) == 1
  {
    UnitOfIs(1024, 1);
    if bytes < 1024 {
      UnitOfIs(bytes, 0);
    }
  }
}
