/** The bitmap size selection and resource naming of src/bitmaps.cc. The
    menu check-mark metrics are parameters; loading the bitmap itself is
    outside the model. */
module BitmapRes {

  /** The sizes bitmaps exist in, ascending. */
  const AvailableSizes: seq<int> := [12, 16]

  predicate Ascending(s: seq<int>)
  {
    forall i, j | 0 <= i < j < |s| :: s[i] < s[j]
  }

  /** The side of the largest square that fits the check mark. */
  function MaxSize(width: int, height: int): (m: int)
    ensures m == width || m == height
    ensures m <= width && m <= height
  {
    if width < height then width else height
  }

  /** The size after the scan of `sizes` starting from `prior`: each entry
      that fits replaces the size, and the first that does not ends the
      scan. */
  function Choose(sizes: seq<int>, maxSize: int, prior: int): int
  {
    if sizes == [] || maxSize < sizes[0] then prior
    else Choose(sizes[1..], maxSize, sizes[0])
  }

  /** For ascending sizes the scan picks the largest size that fits, and
      keeps the prior size when none does. */
  lemma {:induction false} ChooseLargestFitting(sizes: seq<int>, maxSize: int, prior: int)
    requires Ascending(sizes)
    ensures var r := Choose(sizes, maxSize, prior);
      && (sizes == [] || maxSize < sizes[0] ==> r == prior)
      && (sizes != [] && sizes[0] <= maxSize ==> r in sizes && r <= maxSize)
      && (forall i | 0 <= i < |sizes| && sizes[i] <= maxSize :: sizes[i] <= r)
  {
    if sizes != [] && sizes[0] <= maxSize {
      var rest := sizes[1..];
      ChooseLargestFitting(rest, maxSize, sizes[0]);
      var r := Choose(sizes, maxSize, prior);
      forall i | 0 <= i < |sizes| && sizes[i] <= maxSize
        ensures sizes[i] <= r
      {
        if i > 0 {
          assert sizes[i] == rest[i - 1];
        }
      }
    }
  }

  /** With the sizes 12 and 16: 16 from a 16-pixel check mark on, 12 from
      12 to 15, and the prior size below 12. */
  lemma AvailableSizeChoice(width: int, height: int, prior: int)
    ensures var m := MaxSize(width, height);
      Choose(AvailableSizes, m, prior) == (if m >= 16 then 16 else if m >= 12 then 12 else prior)
  {
    var m := MaxSize(width, height);
    assert AvailableSizes[1..] == [16];
    assert [16][1..] == [];
    if m >= 12 {
      assert Choose(AvailableSizes, m, prior) == Choose([16], m, 12);
      if m >= 16 {
        assert Choose([16], m, 12) == Choose([], m, 16);
      }
    }
  }

  /** The decimal digits of a natural number, as ostream writes it. */
  function Digits(n: nat): (s: string)
    ensures |s| >= 1
    ensures forall i | 0 <= i < |s| :: '0' <= s[i] <= '9'
  {
    if n < 10 then [('0' as int + n) as char]
    else Digits(n / 10) + [('0' as int + n % 10) as char]
  }

  /** An int as ostream writes it: a minus sign for negative values. */
  function Decimal(n: int): string
  {
    if n < 0 then "-" + Digits(-n) else Digits(n)
  }

  /** The value of a string of decimal digits. */
  function DigitsValue(s: string): nat
  {
    if s == [] then 0
    else
      var d := s[|s| - 1] as int - '0' as int;
      DigitsValue(s[..|s| - 1]) * 10 + (if 0 <= d then d else 0)
  }

  /** Reading the digits back gives the number. */
  lemma {:induction false} DigitsRoundTrip(n: nat)
    ensures DigitsValue(Digits(n)) == n
  {
    if n >= 10 {
      DigitsRoundTrip(n / 10);
      var s := Digits(n);
      assert s[..|s| - 1] == Digits(n / 10);
    }
  }

  /** The name of the bitmap resource of one size. */
  function ResourceName(name: string, size: int): string
  {
    name + "-" + Decimal(size)
  }

  /** The resource name is the bitmap's name, a dash, and the size in
      decimal digits, which read back to the size. */
  lemma ResourceNameParts(name: string, size: nat)
    ensures var r := ResourceName(name, size);
      && r[..|name| + 1] == name + "-"
      && DigitsValue(r[|name| + 1..]) == size
      && forall i | |name| + 1 <= i < |r| :: '0' <= r[i] <= '9'
  {
    var r := ResourceName(name, size);
    assert r[|name| + 1..] == Digits(size);
    DigitsRoundTrip(size);
  }

  class Bitmaps {
    /** gpgex_bitmaps_t::size, a static that starts at zero. */
    var size: int

    /** gpgex_bitmaps_t: the size is chosen for the check-mark metrics. */
    constructor (width: int, height: int)
      ensures size == Choose(AvailableSizes, MaxSize(width, height), 0)
    {
      size := 0;
      new;
      SelectSize(width, height);
    }

    /** The scan of the constructor: every available size that fits the
        smaller side replaces the size, until one does not fit. */
    method SelectSize(width: int, height: int)
      modifies this
      ensures size == Choose(AvailableSizes, MaxSize(width, height), old(size))
    {
      var maxSize := if width < height then width else height;
      var i := 0;
      while i < |AvailableSizes|
        invariant 0 <= i <= |AvailableSizes|
        invariant Choose(AvailableSizes[i..], maxSize, size) == Choose(AvailableSizes, maxSize, old(size))
      {
        assert AvailableSizes[i..][1..] == AvailableSizes[i + 1..];
        if maxSize >= AvailableSizes[i] {
          size := AvailableSizes[i];
        } else {
          break;
        }
        i := i + 1;
      }
    }

    /** load_bitmap: the name of the resource it loads. */
    method LoadBitmap(name: string) returns (resource: string)
      ensures resource == ResourceName(name, size)
    {
      resource := name + "-" + Decimal(size);
    }
  }
}
