/** Shared vocabulary: failure types, machine-integer ranges and saturating arithmetic. */
module Base {

  datatype Option<+T> = None | Some(value: T)

  datatype Result<+T, +E> = Ok(value: T) | Err(error: E)

  const U16_MAX := 0xFFFF
  const U32_MAX := 0xFFFF_FFFF
  const U64_MAX := 0xFFFF_FFFF_FFFF_FFFF
  const I64_MAX := 0x7FFF_FFFF_FFFF_FFFF
  const U128_MAX := 0xFFFF_FFFF_FFFF_FFFF_FFFF_FFFF_FFFF_FFFF

  /** `usize` on the 64-bit targets the crates are built for. */
  const USIZE_MAX := U64_MAX

  type byte = x: int | 0 <= x < 256
  type u16 = x: int | 0 <= x <= U16_MAX
  type u32 = x: int | 0 <= x <= U32_MAX
  type u64 = x: int | 0 <= x <= U64_MAX
  type usize = x: int | 0 <= x <= USIZE_MAX

  type Bytes = seq<byte>

  function Min(a: int, b: int): int {
    if a <= b then a else b
  }

  function Max(a: int, b: int): int {
    if a >= b then a else b
  }

  /** `saturating_add` of a type whose largest value is `max`. */
  function SatAdd(a: nat, b: nat, max: nat): nat {
    Min(a + b, max)
  }

  /** `saturating_mul` of a type whose largest value is `max`. */
  function SatMul(a: nat, b: nat, max: nat): nat {
    Min(a * b, max)
  }

  function SatSub(a: nat, b: nat): nat {
    if a >= b then a - b else 0
  }

  /** `+` on `usize` in a release build, where overflow wraps around. */
  function WrapAdd(a: usize, b: usize): usize {
    if a + b <= USIZE_MAX then a + b else a + b - USIZE_MAX - 1
  }

  /** `div_ceil` on unsigned values. */
  function DivCeil(a: nat, b: nat): nat
    requires b > 0
  {
    (a + b - 1) / b
  }

  lemma MulMonotone(a: nat, b: nat, c: nat, d: nat)
    requires a <= c && b <= d
    ensures a * b <= c * d
  {
    assert a * b <= c * b;
    assert c * b <= c * d;
  }

  /** `DivCeil(total, unit)` is the least number of units that cover `total`. */
  lemma DivCeilIsLeast(total: nat, unit: nat, n: nat)
    requires unit > 0
    ensures n >= DivCeil(total, unit) <==> n * unit >= total
  {
    var c := DivCeil(total, unit);
    assert total <= c * unit <= total + unit - 1;
    if n >= c {
      MulMonotone(c, unit, n, unit);
    } else {
      MulMonotone(n, unit, c - 1, unit);
      assert (c - 1) * unit == c * unit - unit;
    }
  }

  // ---------------------------------------------------------------------------------------------
  // Sequences
  // ---------------------------------------------------------------------------------------------

  ghost predicate NoDups<T>(s: seq<T>) {
    forall i, j :: 0 <= i < j < |s| ==> s[i] != s[j]
  }

  /** `items` with position `k` removed. */
  function Without<T>(items: seq<T>, k: nat): seq<T>
    requires k < |items|
  {
    items[..k] + items[k + 1..]
  }

  lemma WithoutSplits<T>(items: seq<T>, k: nat)
    requires k + 1 < |items|
    ensures var n, rest := |items| - 1, Without(items, k);
            rest[..n - 1] == Without(items[..n], k) && rest[n - 1] == items[n]
  {
  }

  ghost predicate TotalOrder<T(!new)>(le: (T, T) -> bool) {
    && (forall a, b :: le(a, b) || le(b, a))
    && (forall a, b, c :: le(a, b) && le(b, c) ==> le(a, c))
  }

  ghost predicate Sorted<T>(le: (T, T) -> bool, s: seq<T>) {
    forall i, j :: 0 <= i < j < |s| ==> le(s[i], s[j])
  }

  /** `x` goes behind everything that is not larger: the step of a stable sort. */
  function Insert<T>(le: (T, T) -> bool, s: seq<T>, x: T): seq<T> {
    if s == [] || le(s[|s| - 1], x) then s + [x]
    else Insert(le, s[..|s| - 1], x) + [s[|s| - 1]]
  }

  lemma MultisetFront<T>(s: seq<T>)
    requires s != []
    ensures multiset(s) == multiset(s[..|s| - 1]) + multiset{s[|s| - 1]}
  {
    assert s == s[..|s| - 1] + [s[|s| - 1]];
  }

  lemma {:induction false} InsertCounts<T>(le: (T, T) -> bool, s: seq<T>, x: T)
    ensures multiset(Insert(le, s, x)) == multiset(s) + multiset{x}
    decreases |s|
  {
    if s == [] || le(s[|s| - 1], x) {
    } else {
      InsertCounts(le, s[..|s| - 1], x);
      MultisetFront(s);
    }
  }

  lemma {:induction false} InsertSorts<T(!new)>(le: (T, T) -> bool, s: seq<T>, x: T)
    requires TotalOrder(le) && Sorted(le, s)
    ensures Sorted(le, Insert(le, s, x))
    decreases |s|
  {
    if s == [] || le(s[|s| - 1], x) {
      forall i | 0 <= i < |s| ensures le(s[i], x) {
        assert i < |s| - 1 ==> le(s[i], s[|s| - 1]);
      }
    } else {
      var n := |s| - 1;
      var front := Insert(le, s[..n], x);
      InsertSorts(le, s[..n], x);
      InsertCounts(le, s[..n], x);
      forall i | 0 <= i < |front| ensures le(front[i], s[n]) {
        assert front[i] in multiset(front);
        assert front[i] in s[..n] || front[i] == x;
      }
    }
  }

  /** The concatenation of the parts. */
  function Flatten<T>(parts: seq<seq<T>>): seq<T> {
    if parts == [] then [] else Flatten(parts[..|parts| - 1]) + parts[|parts| - 1]
  }
}
