/** humanSize: the magnitude step of a byte count. The count is divided by
    1000 while it is at least 1000; the number of divisions picks the unit. */
module HumanSize {
  import opened Images

  const Units: seq<string> := ["B", "KB", "MB", "GB", "TB"]

  function Pow1000(k: nat): (r: nat)
    ensures r >= 1
  {
    if k == 0 then 1 else 1000 * Pow1000(k - 1)
  }

  /** How many times the loop divides `raw` by 1000. */
  function UnitIndex(raw: int): nat
    decreases raw
  {
    if raw < 1000 then 0 else 1 + UnitIndex(raw / 1000)
  }

  /** The index is the decimal magnitude: 1000^k <= raw < 1000^(k+1). */
  lemma {:induction false} UnitIndexBounds(raw: int)
    ensures raw < Pow1000(UnitIndex(raw) + 1)
    ensures UnitIndex(raw) > 0 ==> Pow1000(UnitIndex(raw)) <= raw
  {
    if raw >= 1000 {
      var q := raw / 1000;
      UnitIndexBounds(q);
      var k := UnitIndex(q);
      assert raw < 1000 * q + 1000;
      assert q < Pow1000(k + 1);
      assert q + 1 <= Pow1000(k + 1);
      assert 1000 * (q + 1) <= 1000 * Pow1000(k + 1);
      if k > 0 {
        assert Pow1000(k) <= q;
        assert 1000 * Pow1000(k) <= 1000 * q;
      }
    }
  }

  /** The unit table has five entries: the index is valid exactly for counts
      below 10^15; larger counts index past it (Go panics there). */
  lemma UnitInRange(raw: int)
    ensures UnitIndex(raw) < |Units| <==> raw < Pow1000(5)
  {
    UnitIndexBounds(raw);
    var k := UnitIndex(raw);
    if k >= 5 {
      PowMonotone(5, k);
    } else {
      PowMonotone(k + 1, 5);
    }
  }

  lemma {:induction false} PowMonotone(i: nat, j: nat)
    requires i <= j
    ensures Pow1000(i) <= Pow1000(j)
  {
    if i < j {
      PowMonotone(i, j - 1);
    }
  }

  /** Dividing a non-negative real by 1000 divides its floor by 1000. */
  lemma FloorDiv(x: real)
    requires x >= 0.0
    ensures (x / 1000.0).Floor == x.Floor / 1000
  {
    var n := x.Floor;
    var q := n / 1000;
    assert 1000 * q <= n < 1000 * q + 1000;
    assert (1000 * q) as real <= x < (1000 * q + 1000) as real;
    assert q as real <= x / 1000.0 < (q + 1) as real;
  }

  /** The value the loop leaves: `x` divided by 1000 until it is below 1000. */
  ghost function Scaled(x: real): real
    decreases x.Floor
  {
    if x < 1000.0 then x
    else
      FloorDiv(x);
      Scaled(x / 1000.0)
  }

  /** The scaled value is below 1000, and times 1000 to the unit index it
      gives back the count. */
  lemma {:induction false} ScaledMeaning(x: real)
    ensures Scaled(x) < 1000.0
    ensures Scaled(x) * Pow1000(UnitIndex(x.Floor)) as real == x
    decreases x.Floor
  {
    if x >= 1000.0 {
      FloorDiv(x);
      ScaledMeaning(x / 1000.0);
      var p := Pow1000(UnitIndex((x / 1000.0).Floor)) as real;
      assert UnitIndex(x.Floor) == 1 + UnitIndex((x / 1000.0).Floor);
      assert Pow1000(UnitIndex(x.Floor)) as real == 1000.0 * p;
      assert Scaled(x) * (1000.0 * p) == 1000.0 * (Scaled(x / 1000.0) * p);
    }
  }

  /** The loop of humanSize: returns the scaled value and the unit name,
      None where Go's unit table would be indexed out of range. */
  method Scale(raw: int) returns (value: real, unit: Option<string>)
    ensures value == Scaled(raw as real) && value < 1000.0
    ensures unit == if UnitIndex(raw) < |Units| then Some(Units[UnitIndex(raw)]) else None
  {
    value := raw as real;
    var ind: nat := 0;
    while value >= 1000.0
      invariant Scaled(value) == Scaled(raw as real)
      invariant ind + UnitIndex(value.Floor) == UnitIndex(raw)
      decreases value.Floor
    {
      FloorDiv(value);
      value := value / 1000.0;
      ind := ind + 1;
    }
    if ind < |Units| {
      unit := Some(Units[ind]);
    } else {
      unit := None;
    }
  }

  /** What humanSize prints stands for the count: the value times 1000 to the
      unit index is the count itself. */
  lemma ScaleMeaning(raw: int)
    ensures Scaled(raw as real) * Pow1000(UnitIndex(raw)) as real == raw as real
  {
    ScaledMeaning(raw as real);
    assert (raw as real).Floor == raw;
  }
}
