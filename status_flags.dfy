/** The SMP status word as a bitmask of eight named flags, and its textual
    rendering. */
module Status {
  import opened Wrappers

  /** Flag names, in ascending bit order (bit 0 first). */
  const Names: seq<string> := [
    "signal", "overflow", "underflow", "error", "ADC", "DAC",
    "calibration", "update"
  ]

  // Bit index of each flag
  const SIGNAL_QUALITY: nat := 0
  const OVERFLOW: nat := 1
  const UNDERFLOW: nat := 2
  const ERROR: nat := 3
  const ADC: nat := 4
  const DAC: nat := 5
  const CALIBRATION: nat := 6
  const UPDATE: nat := 7

  /** Position of `x` in `s`, or `|s|` when `x` does not occur in `s`. */
  function IndexOf(s: seq<string>, x: string): (k: nat)
    ensures k <= |s|
    ensures k < |s| ==> s[k] == x
    ensures x in s ==> k < |s|
  {
    if s == [] then 0
    else if s[0] == x then 0
    else 1 + IndexOf(s[1..], x)
  }

  /** No two entries of `s` are equal. */
  predicate Distinct(s: seq<string>)
  {
    forall j, k :: 0 <= j < k < |s| ==> s[j] != s[k]
  }

  /** In a list without repetitions, each entry is found at its own place. */
  lemma {:induction false} IndexOfDistinct(s: seq<string>, k: nat)
    requires Distinct(s) && k < |s|
    ensures IndexOf(s, s[k]) == k
  {
    if k > 0 {
      assert s[0] != s[k];
      IndexOfDistinct(s[1..], k - 1);
    }
  }

  /** Every bit 0..7 has a name, and no two bits share one. */
  lemma NamesAreDistinct()
    ensures |Names| == 8 && Distinct(Names)
  {
  }

  /** `names` lists only entries of `order`, in strictly ascending position. */
  ghost predicate AscendingIn(order: seq<string>, names: seq<string>)
  {
    && (forall j :: 0 <= j < |names| ==> names[j] in order)
    && (forall j, k :: 0 <= j < k < |names| ==> IndexOf(order, names[j]) < IndexOf(order, names[k]))
  }

  /** `names` lists only flag names, in strictly ascending bit order. */
  ghost predicate AscendingNames(names: seq<string>)
  {
    AscendingIn(Names, names)
  }

  /** `1 << k` for each bit `k` of a 16-bit word. */
  const Masks: seq<bv16> := [
    0x0001, 0x0002, 0x0004, 0x0008, 0x0010, 0x0020, 0x0040, 0x0080,
    0x0100, 0x0200, 0x0400, 0x0800, 0x1000, 0x2000, 0x4000, 0x8000
  ]

  /** `2^k` for each bit `k` of a 16-bit word. */
  const Weights: seq<nat> := [
    1, 2, 4, 8, 16, 32, 64, 128,
    256, 512, 1024, 2048, 4096, 8192, 16384, 32768
  ]

  function Mask(k: nat): (m: bv16)
    requires k < 16
    ensures m == (1 as bv16) << k
  {
    Masks[k]
  }

  /** A snapshot of the device's 16-bit status word. */
  datatype StatusFlags = StatusFlags(value: bv16)
  {
    /** Bit `flag` of the status word is set: `(1 << flag) & value != 0`.
        No flag beyond the sixteenth bit is set, and none in a clear word. */
    function IsSet(flag: nat): (b: bool)
      ensures b ==> flag < 16 && value != 0
    {
      flag < 16 && value & Mask(flag) != 0
    }

    /** `names` is what `flags_set()` promises: the names whose bit is set,
        each once, in ascending bit order. */
    ghost predicate ListsSetFlags(names: seq<string>)
    {
      && AscendingNames(names)
      && forall k :: 0 <= k < |Names| ==> (Names[k] in names <==> IsSet(k))
    }

    /** The names of the set flags, bit 0 first. */
    function FlagsSet(): (r: seq<string>)
      ensures ListsSetFlags(r)
    {
      var bits := SetBitsFrom(0);
      NamesOfAscendingBits(bits);
      NamesOf(bits)
    }

    /** The bits `k`, for `i <= k < |Names|`, that are set, in ascending
        order: the filter over `enumerate(names)`. */
    function SetBitsFrom(i: nat): (r: seq<nat>)
      requires i <= |Names|
      ensures AscendingBits(r)
      ensures forall j :: 0 <= j < |r| ==> i <= r[j]
      ensures forall k :: i <= k < |Names| ==> (k in r <==> IsSet(k))
      decreases |Names| - i
    {
      if i == |Names| then []
      else if IsSet(i) then
        var rest := SetBitsFrom(i + 1);
        AscendingBitsCons(i, rest);
        [i] + rest
      else SetBitsFrom(i + 1)
    }
  }

  /** Flag `k` of a status word `w` is set exactly when the binary digit of
      weight 2^k of `w` is 1. */
  lemma {:induction false} IsSetArithmetic(w: int, k: nat)
    requires 0 <= w < 0x1_0000
    ensures StatusFlags(w as bv16).IsSet(k) <==> k < 16 && (w / Weights[k]) % 2 == 1
  {
    if k < 16 {
      var m := Mask(k);
      var d := Weights[k];
      if k == 0 { assert m == 1 && d == 1; }
      else if k == 1 { assert m == 2 && d == 2; }
      else if k == 2 { assert m == 4 && d == 4; }
      else if k == 3 { assert m == 8 && d == 8; }
      else if k == 4 { assert m == 16 && d == 16; }
      else if k == 5 { assert m == 32 && d == 32; }
      else if k == 6 { assert m == 64 && d == 64; }
      else if k == 7 { assert m == 128 && d == 128; }
      else if k == 8 { assert m == 256 && d == 256; }
      else if k == 9 { assert m == 512 && d == 512; }
      else if k == 10 { assert m == 1024 && d == 1024; }
      else if k == 11 { assert m == 2048 && d == 2048; }
      else if k == 12 { assert m == 4096 && d == 4096; }
      else if k == 13 { assert m == 8192 && d == 8192; }
      else if k == 14 { assert m == 16384 && d == 16384; }
      else { assert m == 32768 && d == 32768; }
    }
  }

  /** `bits` are flag indices in strictly ascending order. */
  predicate AscendingBits(bits: seq<nat>)
  {
    && (forall j :: 0 <= j < |bits| ==> bits[j] < |Names|)
    && (forall j, k :: 0 <= j < k < |bits| ==> bits[j] < bits[k])
  }

  /** A flag index put in front of ascending larger ones keeps them
      ascending. */
  lemma AscendingBitsCons(i: nat, rest: seq<nat>)
    requires i < |Names| && AscendingBits(rest)
    requires forall j :: 0 <= j < |rest| ==> i < rest[j]
    ensures AscendingBits([i] + rest)
    ensures forall k :: k in [i] + rest <==> k == i || k in rest
  {
    var r := [i] + rest;
    forall j, k | 0 <= j < k < |r|
      ensures r[j] < r[k]
    {
      assert r[k] == rest[k - 1];
      if j > 0 {
        assert r[j] == rest[j - 1];
      }
    }
  }

  /** The names of the flag indices `bits`, in the same order. */
  function NamesOf(bits: seq<nat>): (r: seq<string>)
    requires forall j :: 0 <= j < |bits| ==> bits[j] < |Names|
  {
    seq(|bits|, j requires 0 <= j < |bits| => Names[bits[j]])
  }

  /** The names of ascending flag indices are ascending flag names, and a
      flag's name is among them exactly when its index is. */
  lemma NamesOfAscendingBits(bits: seq<nat>)
    requires AscendingBits(bits)
    ensures AscendingNames(NamesOf(bits))
    ensures forall k :: 0 <= k < |Names| ==> (Names[k] in NamesOf(bits) <==> k in bits)
  {
    var r := NamesOf(bits);
    NamesAreDistinct();
    forall j | 0 <= j < |r|
      ensures r[j] in Names && IndexOf(Names, r[j]) == bits[j]
    {
      IndexOfDistinct(Names, bits[j]);
    }
    forall k | 0 <= k < |Names|
      ensures Names[k] in r <==> k in bits
    {
      if Names[k] in r {
        var j :| 0 <= j < |r| && r[j] == Names[k];
        IndexOfDistinct(Names, k);
        assert bits[j] == k;
      }
      if k in bits {
        var j :| 0 <= j < |bits| && bits[j] == k;
        assert r[j] == Names[k];
      }
    }
  }

  /** Once the heads of two ascending lists with the same entries agree,
      their tails are ascending and hold the same entries. */
  lemma AscendingTails(order: seq<string>, a: seq<string>, b: seq<string>)
    requires AscendingIn(order, a) && AscendingIn(order, b)
    requires a != [] && b != [] && a[0] == b[0]
    requires forall x :: x in a <==> x in b
    ensures AscendingIn(order, a[1..]) && AscendingIn(order, b[1..])
    ensures forall x :: x in a[1..] <==> x in b[1..]
  {
    forall x
      ensures x in a[1..] ==> x in b[1..]
      ensures x in b[1..] ==> x in a[1..]
    {
      if x in a[1..] {
        var m :| 0 <= m < |a| - 1 && a[1..][m] == x;
        assert IndexOf(order, a[0]) < IndexOf(order, a[m + 1]);
        assert x in a && x in b;
        var n :| 0 <= n < |b| && b[n] == x;
        assert b[1..][n - 1] == x;
      }
      if x in b[1..] {
        var m :| 0 <= m < |b| - 1 && b[1..][m] == x;
        assert IndexOf(order, b[0]) < IndexOf(order, b[m + 1]);
        assert x in b && x in a;
        var n :| 0 <= n < |a| && a[n] == x;
        assert a[1..][n - 1] == x;
      }
    }
  }

  lemma EmptyIffNoMember<T>(s: seq<T>)
    ensures s == [] <==> forall x :: x !in s
  {
    if s != [] {
      assert s[0] in s;
    }
  }

  /** Two lists in ascending position of `order` that hold the same
      entries are the same list. */
  lemma {:induction false} AscendingUnique(order: seq<string>, a: seq<string>, b: seq<string>)
    requires AscendingIn(order, a) && AscendingIn(order, b)
    requires forall x :: x in a <==> x in b
    ensures a == b
    decreases |a| + |b|
  {
    if a == [] || b == [] {
      EmptyIffNoMember(a);
      EmptyIffNoMember(b);
    } else {
      assert a[0] in b && b[0] in a;
      var i :| 0 <= i < |b| && b[i] == a[0];
      var j :| 0 <= j < |a| && a[j] == b[0];
      assert i == 0;
      AscendingTails(order, a, b);
      AscendingUnique(order, a[1..], b[1..]);
      assert a == [a[0]] + a[1..] && b == [b[0]] + b[1..];
    }
  }

  /** `flags_set()` is the only list that lists the set flags in ascending
      bit order. */
  lemma FlagsSetCharacterised(sf: StatusFlags, names: seq<string>)
    requires sf.ListsSetFlags(names)
    ensures names == sf.FlagsSet()
  {
    var r := sf.FlagsSet();
    forall x
      ensures x in names <==> x in r
    {
      if x in Names {
        var k := IndexOf(Names, x);
        assert Names[k] in names <==> sf.IsSet(k);
        assert Names[k] in r <==> sf.IsSet(k);
      }
    }
    AscendingUnique(Names, names, r);
  }

  /** `is_set(flag)` holds for a flag index exactly when that flag's name is
      listed by `flags_set()`. */
  lemma IsSetIffListed(sf: StatusFlags, flag: nat)
    requires flag < |Names|
    ensures sf.IsSet(flag) <==> Names[flag] in sf.FlagsSet()
  {
  }

  /** The flag constants index their own names: ERROR is bit 3, UPDATE bit 7. */
  lemma FlagConstantsName()
    ensures Names[SIGNAL_QUALITY] == "signal" && Names[OVERFLOW] == "overflow"
    ensures Names[UNDERFLOW] == "underflow" && Names[ERROR] == "error"
    ensures Names[ADC] == "ADC" && Names[DAC] == "DAC"
    ensures Names[CALIBRATION] == "calibration" && Names[UPDATE] == "update"
    ensures ERROR == 3 && UPDATE == 7
  {
  }

  /** Two status words that agree on bits `i` to 7 set the same bits
      from `i` on. */
  lemma {:induction false} SetBitsAgree(a: StatusFlags, b: StatusFlags, i: nat)
    requires i <= |Names|
    requires forall k :: i <= k < |Names| ==> (a.IsSet(k) <==> b.IsSet(k))
    ensures a.SetBitsFrom(i) == b.SetBitsFrom(i)
    decreases |Names| - i
  {
    if i < |Names| {
      SetBitsAgree(a, b, i + 1);
    }
  }

  /** Bits 8 to 15 of the status word never contribute a name. */
  lemma HighBitsIgnored(v: bv16)
    ensures StatusFlags(v).FlagsSet() == StatusFlags(v & 0xFF).FlagsSet()
  {
    SetBitsAgree(StatusFlags(v), StatusFlags(v & 0xFF), 0);
  }

  /** A clear status word lists no flag. */
  lemma FlagsSetOfClearWord()
    ensures StatusFlags(0).FlagsSet() == []
  {
    EmptyIffNoMember(StatusFlags(0).SetBitsFrom(0));
  }

  /** A single flag is listed by its name. */
  lemma FlagsSetSingleFlag()
    ensures StatusFlags(0x01).FlagsSet() == ["signal"]
  {
    var sf := StatusFlags(0x01);
    assert sf.SetBitsFrom(1) == [] by {
      EmptyIffNoMember(sf.SetBitsFrom(1));
    }
    assert sf.SetBitsFrom(0) == [0];
  }

  /** Two flags are listed in ascending bit order. */
  lemma FlagsSetTwoFlags()
    ensures StatusFlags(0x81).FlagsSet() == ["signal", "update"]
  {
    var sf := StatusFlags(0x81);
    assert sf.SetBitsFrom(0) == [0, 7] by {
      var r := sf.SetBitsFrom(1);
      assert 7 in r;
      assert r == [7] by {
        forall j | 0 <= j < |r|
          ensures r[j] == 7
        {
          assert r[j] in r;
        }
      }
    }
    assert NamesOf([0, 7]) == [Names[SIGNAL_QUALITY], Names[UPDATE]];
  }

  /** A non-zero status word can still list no flag at all, when only bits
      above 7 are set. */
  lemma UnnamedBitsListNothing()
    ensures StatusFlags(0x0100).value != 0 && StatusFlags(0x0100).FlagsSet() == []
  {
    HighBitsIgnored(0x0100);
    FlagsSetCharacterised(StatusFlags(0), []);
  }

  // ---- Textual rendering ----

  /** Python's `sep.join(xs)` over a list of strings. */
  function Join(xs: seq<string>, sep: char): string
  {
    if xs == [] then ""
    else if |xs| == 1 then xs[0]
    else xs[0] + [sep] + Join(xs[1..], sep)
  }

  /** Python's `s.split(sep)`: the pieces between separators, always at
      least one. */
  function Split(s: string, sep: char): (r: seq<string>)
    ensures |r| >= 1
  {
    if s == [] then [""]
    else
      var rest := Split(s[1..], sep);
      if s[0] == sep then [""] + rest
      else [[s[0]] + rest[0]] + rest[1..]
  }

  lemma {:induction false} SplitNoSeparator(x: string, rest: string, sep: char)
    requires sep !in x
    ensures Split(x, sep) == [x]
    ensures Split(x + [sep] + rest, sep) == [x] + Split(rest, sep)
  {
    if x != [] {
      SplitNoSeparator(x[1..], rest, sep);
      assert (x + [sep] + rest)[1..] == x[1..] + [sep] + rest;
      assert [x[0]] + x[1..] == x;
    } else {
      assert x + [sep] + rest == [sep] + rest;
    }
  }

  /** Splitting a non-empty join on its separator gives back the pieces,
      provided no piece contains the separator. */
  lemma {:induction false} SplitJoin(xs: seq<string>, sep: char)
    requires xs != []
    requires forall j :: 0 <= j < |xs| ==> sep !in xs[j]
    ensures Split(Join(xs, sep), sep) == xs
  {
    if |xs| == 1 {
      SplitNoSeparator(xs[0], "", sep);
    } else {
      SplitJoin(xs[1..], sep);
      SplitNoSeparator(xs[0], Join(xs[1..], sep), sep);
    }
  }

  /** A Python value handed to `str.join`: a list of strings, or a bound
      method object, which is not iterable. */
  datatype JoinArgument = StringList(items: seq<string>) | BoundMethod(name: string)

  datatype RenderError = NotIterable

  /** `','.join(arg)`: fails with a TypeError unless `arg` is iterable. */
  function CommaJoin(arg: JoinArgument): Result<string, RenderError>
  {
    match arg
    case StringList(items) => Success(Join(items, ','))
    case BoundMethod(_) => Failure(NotIterable)
  }

  /** `__str__` as written: joins the bound method `flags_set` itself, so
      rendering fails for every status word. */
  function StrAsWritten(sf: StatusFlags): (r: Result<string, RenderError>)
    ensures r == Failure(NotIterable)
  {
    CommaJoin(BoundMethod("flags_set"))
  }

  /** No flag name contains a comma. */
  lemma NamesHaveNoComma()
    ensures forall x :: x in Names ==> ',' !in x
  {
  }

  /** The intended rendering: the set flag names joined by commas. It is
      empty for a word with no set flag, and otherwise splits back on commas
      into exactly `flags_set()`. */
  function Render(sf: StatusFlags): (s: string)
    ensures sf.FlagsSet() == [] ==> s == ""
    ensures sf.FlagsSet() != [] ==> Split(s, ',') == sf.FlagsSet()
  {
    var names := sf.FlagsSet();
    var s := CommaJoin(StringList(names)).value;
    NamesHaveNoComma();
    if names != [] then
      SplitJoin(names, ',');
      s
    else s
  }

  /** The status word 0x08 (the error flag alone): the code as written
      raises, where the intended rendering is "error". */
  lemma StrOfErrorFlag()
    ensures StrAsWritten(StatusFlags(0x08)).Failure?
    ensures Render(StatusFlags(0x08)) == "error"
  {
    var sf := StatusFlags(0x08);
    assert sf.SetBitsFrom(4) == [] by {
      EmptyIffNoMember(sf.SetBitsFrom(4));
    }
    assert sf.SetBitsFrom(0) == [3];
    assert sf.FlagsSet() == ["error"];
  }
}
