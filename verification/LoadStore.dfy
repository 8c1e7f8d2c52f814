/** What loads deliver and stores write, byte by byte; and what addresses, targets and links are. */
module LoadStore {
  import opened Basics
  import opened Isa

  /** The value of a word read as signed. */
  function Signed(w: Word): int {
    if w < 0x8000_0000 then w else w - 0x1_0000_0000
  }

  /** The byte a load of one byte, d places after ea, delivers. */
  function ByteFrom(mem: Mem, ea: Word, d: nat): Word {
    LoadValues(Lbu, mem, Wrap(ea + d), 0)[0]
  }

  lemma ByteLoads(mem: Mem, ea: Word, x: Word)
    ensures LoadValues(Lbu, mem, ea, x) == [mem(ea)]
    ensures Signed(LoadValues(Lb, mem, ea, x)[0]) == if mem(ea) < 0x80 then mem(ea) else mem(ea) - 0x100
  {
  }

  /** A big-endian halfword, unsigned and signed. */
  lemma HalfLoads(mem: Mem, ea: Word, x: Word)
    ensures var h := 0x100 * ByteFrom(mem, ea, 0) + ByteFrom(mem, ea, 1);
            && LoadValues(Lhu, mem, ea, x) == [h]
            && Signed(LoadValues(Lh, mem, ea, x)[0]) == if h < 0x8000 then h else h - 0x1_0000
  {
  }

  /** The word whose bytes are given, most significant first. */
  function Joined(a: Byte, b: Byte, c: Byte, d: Byte): Word {
    0x100_0000 * a + 0x1_0000 * b + 0x100 * c + d
  }

  lemma FromIsAt(mem: Mem, ea: Word, d: nat)
    ensures ByteFrom(mem, ea, d) == ByteAt(mem, ea + d)
  {
  }

  lemma FourFrom(mem: Mem, ea: Word)
    ensures ByteFrom(mem, ea, 0) == ByteAt(mem, ea) && ByteFrom(mem, ea, 1) == ByteAt(mem, ea + 1)
    ensures ByteFrom(mem, ea, 2) == ByteAt(mem, ea + 2) && ByteFrom(mem, ea, 3) == ByteAt(mem, ea + 3)
  {
    hide ByteFrom;
    FromIsAt(mem, ea, 0);
    FromIsAt(mem, ea, 1);
    FromIsAt(mem, ea, 2);
    FromIsAt(mem, ea, 3);
  }

  /** A big-endian word, to either register file. */
  lemma WordLoads(mem: Mem, ea: Word, x: Word)
    ensures var w := 0x100_0000 * ByteFrom(mem, ea, 0) + 0x1_0000 * ByteFrom(mem, ea, 1) +
                     0x100 * ByteFrom(mem, ea, 2) + ByteFrom(mem, ea, 3);
            LoadValues(Lw, mem, ea, x) == [w] && LoadValues(Lwc1, mem, ea, x) == [w]
  {
    hide ByteFrom, ByteAt;
    FourFrom(mem, ea);
  }

  /** A double fills a register pair: the first register takes the word at the higher address. */
  lemma DoubleLoads(mem: Mem, ea: Word, x: Word)
    ensures LoadValues(Ldc1, mem, ea, x) ==
            [LoadValues(Lw, mem, Wrap(ea + 4), x)[0], LoadValues(Lw, mem, ea, x)[0]]
  {
    hide Half;
    WrapPlus(ea, 4);
    assert Full(mem, Wrap(ea + 4)) == Full(mem, ea + 4) by { WrapFull(mem, ea + 4); }
  }

  lemma WrapFull(mem: Mem, a: int)
    ensures Full(mem, Wrap(a)) == Full(mem, a)
  {
    WrapPlus(a, 1);
    WrapPlus(a, 2);
    WrapPlus(a, 3);
    assert Wrap(Wrap(a)) == Wrap(a);
  }

  // ----- unaligned words ----------------------------------------------------------------------------------------

  lemma JoinedParts(a: Byte, b: Byte, c: Byte, d: Byte)
    ensures var w := Joined(a, b, c, d);
            && w % 0x100 == d && w / 0x100 == 0x1_0000 * a + 0x100 * b + c
            && w % 0x1_0000 == 0x100 * c + d && w / 0x1_0000 == 0x100 * a + b
            && w % 0x100_0000 == 0x1_0000 * b + 0x100 * c + d && w / 0x100_0000 == a
  {
  }

  lemma FullJoined(mem: Mem, a: int)
    ensures Full(mem, a) == Joined(ByteAt(mem, a), ByteAt(mem, a + 1), ByteAt(mem, a + 2), ByteAt(mem, a + 3))
  {
  }

  /** The bytes of a word, most significant first. */
  lemma Split(w: Word) returns (a: Byte, b: Byte, c: Byte, d: Byte)
    ensures w == Joined(a, b, c, d)
  {
    a := w / 0x100_0000;
    var r: int := w - 0x100_0000 * a;
    b := r / 0x1_0000;
    var q := r - 0x1_0000 * b;
    c, d := q / 0x100, q % 0x100;
  }

  /** lwl: the bytes from ea to the end of its word go to the front of the register, whose other bytes stay. */
  lemma LeftLoads(mem: Mem, ea: Word, x0: Byte, x1: Byte, x2: Byte, x3: Byte)
    ensures var b0, b1, b2, b3 := ByteAt(mem, ea), ByteAt(mem, ea + 1), ByteAt(mem, ea + 2), ByteAt(mem, ea + 3);
            LoadValues(Lwl, mem, ea, Joined(x0, x1, x2, x3)) ==
            [if ea % 4 == 0 then Joined(b0, b1, b2, b3)
             else if ea % 4 == 1 then Joined(b0, b1, b2, x3)
             else if ea % 4 == 2 then Joined(b0, b1, x2, x3)
             else Joined(b0, x1, x2, x3)]
  {
    hide Half, Joined;
    var m := ea - ea % 4;
    FullJoined(mem, m);
    JoinedParts(x0, x1, x2, x3);
    JoinedParts(ByteAt(mem, m), ByteAt(mem, m + 1), ByteAt(mem, m + 2), ByteAt(mem, m + 3));
    LeftJoins(ByteAt(mem, m), ByteAt(mem, m + 1), ByteAt(mem, m + 2), ByteAt(mem, m + 3), x0, x1, x2, x3, ea % 4);
  }

  lemma LeftJoins(r0: Byte, r1: Byte, r2: Byte, r3: Byte, x0: Byte, x1: Byte, x2: Byte, x3: Byte, ma: nat)
    requires ma < 4
    ensures LeftMerge(Joined(r0, r1, r2, r3), Joined(x0, x1, x2, x3), ma) ==
            if ma == 0 then Joined(r0, r1, r2, r3)
            else if ma == 1 then Joined(r1, r2, r3, x3)
            else if ma == 2 then Joined(r2, r3, x2, x3)
            else Joined(r3, x1, x2, x3)
  {
    JoinedParts(r0, r1, r2, r3);
    JoinedParts(x0, x1, x2, x3);
  }

  lemma RightJoins(r0: Byte, r1: Byte, r2: Byte, r3: Byte, x0: Byte, x1: Byte, x2: Byte, x3: Byte, ma: nat)
    requires ma < 4
    ensures RightMerge(Joined(r0, r1, r2, r3), Joined(x0, x1, x2, x3), ma) ==
            if ma == 0 then Joined(x0, x1, x2, r0)
            else if ma == 1 then Joined(x0, x1, r0, r1)
            else if ma == 2 then Joined(x0, r0, r1, r2)
            else Joined(r0, r1, r2, r3)
  {
    JoinedParts(r0, r1, r2, r3);
    JoinedParts(x0, x1, x2, x3);
  }

  /** lwr: the bytes from the start of its word to ea go to the back of the register, whose other bytes stay. */
  lemma RightLoads(mem: Mem, ea: Word, x0: Byte, x1: Byte, x2: Byte, x3: Byte)
    ensures var b0, b1, b2, b3 := ByteAt(mem, ea), ByteAt(mem, ea - 1), ByteAt(mem, ea - 2), ByteAt(mem, ea - 3);
            LoadValues(Lwr, mem, ea, Joined(x0, x1, x2, x3)) ==
            [if ea % 4 == 0 then Joined(x0, x1, x2, b0)
             else if ea % 4 == 1 then Joined(x0, x1, b1, b0)
             else if ea % 4 == 2 then Joined(x0, b2, b1, b0)
             else Joined(b3, b2, b1, b0)]
  {
    hide Half, Joined;
    var m := ea - ea % 4;
    FullJoined(mem, m);
    RightJoins(ByteAt(mem, m), ByteAt(mem, m + 1), ByteAt(mem, m + 2), ByteAt(mem, m + 3), x0, x1, x2, x3, ea % 4);
  }

  /** lwl at ea and then lwr at ea + 3 load the word at ea, wherever it lies and whatever was in the register. */
  lemma UnalignedWord(mem: Mem, ea: Word, x: Word)
    ensures var left := LoadValues(Lwl, mem, ea, x)[0];
            LoadValues(Lwr, mem, Wrap(ea + 3), left) ==
            [0x100_0000 * ByteFrom(mem, ea, 0) + 0x1_0000 * ByteFrom(mem, ea, 1) +
             0x100 * ByteFrom(mem, ea, 2) + ByteFrom(mem, ea, 3)]
  {
    hide LoadValues, ByteFrom, ByteAt, Wrap;
    FourFrom(mem, ea);
    var x0, x1, x2, x3 := Split(x);
    var b0, b1, b2, b3 := ByteAt(mem, ea), ByteAt(mem, ea + 1), ByteAt(mem, ea + 2), ByteAt(mem, ea + 3);
    LeftLoads(mem, ea, x0, x1, x2, x3);
    BytesBack(mem, ea);
    ThirdPlace(ea);
    if ea % 4 == 0 {
      RightLoads(mem, Wrap(ea + 3), b0, b1, b2, b3);
    } else if ea % 4 == 1 {
      RightLoads(mem, Wrap(ea + 3), b0, b1, b2, x3);
    } else if ea % 4 == 2 {
      RightLoads(mem, Wrap(ea + 3), b0, b1, x2, x3);
    } else {
      RightLoads(mem, Wrap(ea + 3), b0, x1, x2, x3);
    }
  }

  lemma ThirdPlace(ea: Word)
    ensures Wrap(ea + 3) % 4 == (ea % 4 + 3) % 4
  {
  }

  lemma BytesBack(mem: Mem, ea: Word)
    ensures var e := Wrap(ea + 3);
            && ByteAt(mem, e) == ByteAt(mem, ea + 3) && ByteAt(mem, e - 1) == ByteAt(mem, ea + 2)
            && ByteAt(mem, e - 2) == ByteAt(mem, ea + 1) && ByteAt(mem, e - 3) == ByteAt(mem, ea)
  {
    WrapPlus(ea + 3, 0);
    WrapPlus(ea + 3, -1);
    WrapPlus(ea + 3, -2);
    WrapPlus(ea + 3, -3);
  }

  // ----- stores -------------------------------------------------------------------------------------------------

  /** The memory a store leaves. */
  function Stored(mem: Mem, k: StoreKind, ea: Word, vals: seq<Word>): Mem
    requires |vals| == (if k.Sdc1? then 3 else 2)
  {
    WriteBytes(mem, ea, StoreBytes(k, vals))
  }

  lemma WrittenByte(mem: Mem, ea: Word, bytes: seq<Byte>, d: nat)
    requires d < 0x1_0000_0000
    ensures ByteAt(WriteBytes(mem, ea, bytes), ea + d) == if d < |bytes| then bytes[d] else ByteAt(mem, ea + d)
  {
    assert Wrap(Wrap(ea + d) - ea) == d;
  }

  /** Byte d of the words a store writes, most significant first, the odd half of a double before the even one. */
  function OperandByte(k: StoreKind, vals: seq<Word>, d: nat): Word
    requires |vals| == (if k.Sdc1? then 3 else 2) && d < StoreWidth(k)
  {
    match k
    case Sb => vals[0] % 0x100
    case Sh => if d == 0 then vals[0] % 0x1_0000 / 0x100 else vals[0] % 0x100
    case Sdc1 => if d < 4 then ByteOf(vals[2], d) else ByteOf(vals[0], d - 4)
    case _ => ByteOf(vals[0], d)
  }

  /** Byte d of a word, counted from the most significant. */
  function ByteOf(w: Word, d: nat): (r: Word)
    requires d < 4
    ensures r < 0x100
  {
    if d == 0 then w / 0x100_0000
    else if d == 1 then w % 0x100_0000 / 0x1_0000
    else if d == 2 then w % 0x1_0000 / 0x100
    else w % 0x100
  }

  /** Loading a byte behind a store gives that byte of the operand; a byte further from ea than that is as it was. */
  lemma StoresBytes(mem: Mem, k: StoreKind, ea: Word, vals: seq<Word>, d: nat)
    requires |vals| == (if k.Sdc1? then 3 else 2) && d < 0x1_0000_0000
    ensures ByteFrom(Stored(mem, k, ea, vals), ea, d) ==
            if d < StoreWidth(k) then OperandByte(k, vals, d) else ByteFrom(mem, ea, d)
  {
    hide LoadValues, OperandByte, StoreBytes;
    var bytes := StoreBytes(k, vals);
    FromIsAt(Stored(mem, k, ea, vals), ea, d);
    FromIsAt(mem, ea, d);
    WrittenByte(mem, ea, bytes, d);
    if d < StoreWidth(k) {
      StoreByteAt(k, vals, d);
    }
  }

  lemma DigitsOfJoined(a: Byte, b: Byte, c: Byte, d: Byte)
    ensures WordBytes(Joined(a, b, c, d)) == [a, b, c, d]
  {
    var w := Joined(a, b, c, d);
    JoinedParts(a, b, c, d);
    hide Joined;
    assert (0x100 * a + b) % 0x100 == b;
    assert (0x1_0000 * a + 0x100 * b + c) % 0x100 == c;
  }

  lemma BytesOfJoined(a: Byte, b: Byte, c: Byte, d: Byte)
    ensures var w := Joined(a, b, c, d);
            ByteOf(w, 0) == a && ByteOf(w, 1) == b && ByteOf(w, 2) == c && ByteOf(w, 3) == d
  {
    JoinedParts(a, b, c, d);
    hide Joined;
    assert (0x1_0000 * b + 0x100 * c + d) / 0x1_0000 == b;
    assert (0x100 * c + d) / 0x100 == c;
  }

  lemma DigitsAgree(w: Word)
    ensures WordBytes(w) == [ByteOf(w, 0), ByteOf(w, 1), ByteOf(w, 2), ByteOf(w, 3)]
  {
    hide WordBytes, ByteOf, Joined;
    var a, b, c, d := Split(w);
    DigitsOfJoined(a, b, c, d);
    BytesOfJoined(a, b, c, d);
  }

  lemma StoreByteAt(k: StoreKind, vals: seq<Word>, d: nat)
    requires |vals| == (if k.Sdc1? then 3 else 2) && d < StoreWidth(k)
    ensures StoreBytes(k, vals)[d] == OperandByte(k, vals, d)
  {
    if k.Sh? {
      HalfBytes(vals[0]);
    } else if k.Sdc1? {
      hide WordBytes, ByteOf;
      DigitsAgree(vals[0]);
      DigitsAgree(vals[2]);
    } else if k.Sw? || k.Swc1? {
      hide WordBytes, ByteOf;
      DigitsAgree(vals[0]);
    }
  }

  lemma HalfBytes(w: Word)
    ensures w / 0x100 % 0x100 == w % 0x1_0000 / 0x100
  {
    hide Joined;
    var a, b, c, d := Split(w);
    HalfOfJoined(a, b, c, d);
  }

  lemma HalfOfJoined(a: Byte, b: Byte, c: Byte, d: Byte)
    ensures Joined(a, b, c, d) / 0x100 % 0x100 == c && Joined(a, b, c, d) % 0x1_0000 / 0x100 == c
  {
    JoinedParts(a, b, c, d);
    hide Joined;
    assert (0x1_0000 * a + 0x100 * b + c) % 0x100 == c;
    assert (0x100 * c + d) / 0x100 == c;
  }

  lemma BytesJoin(w: Word)
    ensures w == 0x100_0000 * ByteOf(w, 0) + 0x1_0000 * ByteOf(w, 1) + 0x100 * ByteOf(w, 2) + ByteOf(w, 3)
  {
    hide ByteOf;
    var a, b, c, d := Split(w);
    BytesOfJoined(a, b, c, d);
  }

  /** A load of the same width gives the operand back; a double, the pair. */
  lemma LoadAfterStore(mem: Mem, ea: Word, vals: seq<Word>, x: Word)
    requires |vals| == 2
    ensures LoadValues(Lbu, Stored(mem, Sb, ea, vals), ea, x) == [vals[0] % 0x100]
    ensures LoadValues(Lhu, Stored(mem, Sh, ea, vals), ea, x) == [vals[0] % 0x1_0000]
    ensures LoadValues(Lw, Stored(mem, Sw, ea, vals), ea, x) == [vals[0]]
    ensures LoadValues(Lwc1, Stored(mem, Swc1, ea, vals), ea, x) == [vals[0]]
  {
    hide LoadValues, Stored, ByteFrom, ByteOf;
    StoresBytes(mem, Sb, ea, vals, 0);
    ByteLoads(Stored(mem, Sb, ea, vals), ea, x);
    FirstByte(Stored(mem, Sb, ea, vals), ea);
    StoresBytes(mem, Sh, ea, vals, 0);
    StoresBytes(mem, Sh, ea, vals, 1);
    HalfLoads(Stored(mem, Sh, ea, vals), ea, x);
    HalfJoins(vals[0]);
    WordAfter(mem, Sw, ea, vals, x);
    WordAfter(mem, Swc1, ea, vals, x);
  }

  lemma FirstByte(mem: Mem, ea: Word)
    ensures ByteFrom(mem, ea, 0) == mem(ea)
  {
  }

  lemma HalfJoins(w: Word)
    ensures w % 0x1_0000 == 0x100 * (w % 0x1_0000 / 0x100) + w % 0x100
  {
    hide Joined;
    var a, b, c, d := Split(w);
    JoinedParts(a, b, c, d);
    HalfOfJoined(a, b, c, d);
  }

  lemma WordAfter(mem: Mem, k: StoreKind, ea: Word, vals: seq<Word>, x: Word)
    requires (k.Sw? || k.Swc1?) && |vals| == 2
    ensures LoadValues(Lw, Stored(mem, k, ea, vals), ea, x) == [vals[0]]
    ensures LoadValues(Lwc1, Stored(mem, k, ea, vals), ea, x) == [vals[0]]
  {
    hide LoadValues, Stored, ByteFrom, ByteOf;
    StoresBytes(mem, k, ea, vals, 0);
    StoresBytes(mem, k, ea, vals, 1);
    StoresBytes(mem, k, ea, vals, 2);
    StoresBytes(mem, k, ea, vals, 3);
    WordLoads(Stored(mem, k, ea, vals), ea, x);
    BytesJoin(vals[0]);
  }

  lemma DoubleAfterStore(mem: Mem, ea: Word, vals: seq<Word>, x: Word)
    requires |vals| == 3
    ensures LoadValues(Ldc1, Stored(mem, Sdc1, ea, vals), ea, x) == [vals[0], vals[2]]
  {
    hide LoadValues, Stored, ByteFrom, ByteOf;
    var m := Stored(mem, Sdc1, ea, vals);
    forall d | 0 <= d < 8
      ensures ByteFrom(m, ea, d) == OperandByte(Sdc1, vals, d)
    {
      StoresBytes(mem, Sdc1, ea, vals, d);
    }
    DoubleLoads(m, ea, x);
    WordLoads(m, ea, x);
    WordLoads(m, Wrap(ea + 4), x);
    FromFour(m, ea, 0);
    FromFour(m, ea, 1);
    FromFour(m, ea, 2);
    FromFour(m, ea, 3);
    BytesJoin(vals[0]);
    BytesJoin(vals[2]);
  }

  lemma FromFour(mem: Mem, ea: Word, d: nat)
    ensures ByteFrom(mem, Wrap(ea + 4), d) == ByteFrom(mem, ea, 4 + d)
  {
    WrapPlus(ea + 4, d);
  }

  // ----- alignment ----------------------------------------------------------------------------------------------

  /** The number of bytes whose multiple the address of a load has to be: what it reads, or 1 for the loads of unaligned
      words. */
  function Multiple(k: LoadKind): (n: nat)
    ensures n > 0
  {
    match k
    case Lh => 2
    case Lhu => 2
    case Lw => 4
    case Lwc1 => 4
    case Ldc1 => 8
    case _ => 1
  }

  lemma AlignedExact(k: LoadKind, ea: Word)
    ensures LoadAligned(k, ea) <==> ea % Multiple(k) == 0
  {
  }

  ghost predicate SameBytes(m1: Mem, m2: Mem, ea: Word, n: nat) {
    forall d :: 0 <= d < n ==> ByteFrom(m1, ea, d) == ByteFrom(m2, ea, d)
  }

  lemma SameTwo(m1: Mem, m2: Mem, ea: Word)
    ensures SameBytes(m1, m2, ea, 2) <==> Half(m1, ea) == Half(m2, ea)
  {
    hide ByteFrom;
    FromIsAt(m1, ea, 0);
    FromIsAt(m2, ea, 0);
    FromIsAt(m1, ea, 1);
    FromIsAt(m2, ea, 1);
  }

  lemma FromShift(mem: Mem, ea: Word, n: nat, d: nat)
    ensures ByteFrom(mem, Wrap(ea + n), d) == ByteFrom(mem, ea, n + d)
  {
    WrapPlus(ea + n, d);
  }

  lemma SameSplit(m1: Mem, m2: Mem, ea: Word, n: nat, k: nat)
    ensures SameBytes(m1, m2, ea, n + k) <==> SameBytes(m1, m2, ea, n) && SameBytes(m1, m2, Wrap(ea + n), k)
  {
    hide ByteFrom, Wrap;
    var e := Wrap(ea + n);
    forall d: nat
      ensures ByteFrom(m1, e, d) == ByteFrom(m1, ea, n + d)
      ensures ByteFrom(m2, e, d) == ByteFrom(m2, ea, n + d)
    {
      FromShift(m1, ea, n, d);
      FromShift(m2, ea, n, d);
    }
    if SameBytes(m1, m2, ea, n) && SameBytes(m1, m2, Wrap(ea + n), k) {
      forall d | 0 <= d < n + k
        ensures ByteFrom(m1, ea, d) == ByteFrom(m2, ea, d)
      {
        if d >= n {
          assert ByteFrom(m1, e, d - n) == ByteFrom(m2, e, d - n);
        }
      }
    }
  }

  lemma SameFour(m1: Mem, m2: Mem, ea: Word)
    ensures SameBytes(m1, m2, ea, 4) <==> Full(m1, ea) == Full(m2, ea)
  {
    hide SameBytes, Half;
    SameSplit(m1, m2, ea, 2, 2);
    SameTwo(m1, m2, ea);
    SameTwo(m1, m2, Wrap(ea + 2));
    WrapHalf(m1, ea + 2);
    WrapHalf(m2, ea + 2);
    HalfSmall(m1, ea);
    HalfSmall(m2, ea);
    HalfSmall(m1, ea + 2);
    HalfSmall(m2, ea + 2);
  }

  lemma WrapHalf(mem: Mem, a: int)
    ensures Half(mem, Wrap(a)) == Half(mem, a)
  {
    WrapPlus(a, 1);
    assert Wrap(Wrap(a)) == Wrap(a);
  }

  lemma HalfSmall(mem: Mem, a: int)
    ensures 0 <= Half(mem, a) < 0x1_0000
  {
  }

  /** A load other than lwl and lwr depends on the Multiple(k) bytes from its address, on each of them and on no other
      byte. */
  lemma MultipleIsRead(k: LoadKind, m1: Mem, m2: Mem, ea: Word, x: Word)
    requires !k.Lwl? && !k.Lwr?
    ensures LoadValues(k, m1, ea, x) == LoadValues(k, m2, ea, x) <==>
            forall d :: 0 <= d < Multiple(k) ==> ByteFrom(m1, ea, d) == ByteFrom(m2, ea, d)
  {
    assert SameBytes(m1, m2, ea, Multiple(k)) <==>
           forall d :: 0 <= d < Multiple(k) ==> ByteFrom(m1, ea, d) == ByteFrom(m2, ea, d);
    hide LoadValues, ByteFrom, SameBytes;
    match k
    case Lh => TwoRead(k, m1, m2, ea, x);
    case Lhu => TwoRead(k, m1, m2, ea, x);
    case Lw => FourRead(k, m1, m2, ea, x);
    case Lwc1 => FourRead(k, m1, m2, ea, x);
    case Ldc1 => EightRead(m1, m2, ea, x);
    case _ => OneRead(k, m1, m2, ea, x);
  }

  lemma TwoRead(k: LoadKind, m1: Mem, m2: Mem, ea: Word, x: Word)
    requires k.Lh? || k.Lhu?
    ensures LoadValues(k, m1, ea, x) == LoadValues(k, m2, ea, x) <==> SameBytes(m1, m2, ea, 2)
  {
    hide Half, ByteFrom, SameBytes;
    SameTwo(m1, m2, ea);
    HalfSmall(m1, ea);
    HalfSmall(m2, ea);
    var v1, v2 := LoadValues(k, m1, ea, x), LoadValues(k, m2, ea, x);
    assert v1 == v2 <==> v1[0] == v2[0];
  }

  lemma FourRead(k: LoadKind, m1: Mem, m2: Mem, ea: Word, x: Word)
    requires k.Lw? || k.Lwc1?
    ensures LoadValues(k, m1, ea, x) == LoadValues(k, m2, ea, x) <==> SameBytes(m1, m2, ea, 4)
  {
    hide Full, ByteFrom, SameBytes;
    SameFour(m1, m2, ea);
    var v1, v2 := LoadValues(k, m1, ea, x), LoadValues(k, m2, ea, x);
    assert v1 == v2 <==> v1[0] == v2[0];
  }

  lemma EightRead(m1: Mem, m2: Mem, ea: Word, x: Word)
    ensures LoadValues(Ldc1, m1, ea, x) == LoadValues(Ldc1, m2, ea, x) <==> SameBytes(m1, m2, ea, 8)
  {
    hide Full, ByteFrom, SameBytes, Wrap;
    SameSplit(m1, m2, ea, 4, 4);
    SameFour(m1, m2, ea);
    SameFour(m1, m2, Wrap(ea + 4));
    WrapFull(m1, ea + 4);
    WrapFull(m2, ea + 4);
    var v1, v2 := LoadValues(Ldc1, m1, ea, x), LoadValues(Ldc1, m2, ea, x);
    assert v1 == v2 <==> v1[0] == v2[0] && v1[1] == v2[1];
  }

  lemma OneRead(k: LoadKind, m1: Mem, m2: Mem, ea: Word, x: Word)
    requires k.Lb? || k.Lbu?
    ensures LoadValues(k, m1, ea, x) == LoadValues(k, m2, ea, x) <==> SameBytes(m1, m2, ea, 1)
  {
    FromIsAt(m1, ea, 0);
    FromIsAt(m2, ea, 0);
    assert SameBytes(m1, m2, ea, 1) <==> ByteFrom(m1, ea, 0) == ByteFrom(m2, ea, 0);
    assert ByteAt(m1, ea) == m1(ea) && ByteAt(m2, ea) == m2(ea);
  }

  // ----- addresses and programs -----------------------------------------------------------------------------------

  /** The address of a load or store is its immediate away from the base register. */
  lemma AddressExact(inst: Inst, vals: seq<Word>)
    requires (inst.Load? && |vals| > 0) || (inst.Store? && |vals| > 1)
    ensures var base := if inst.Load? then vals[0] else vals[1];
            && (0 <= base + inst.imm < 0x1_0000_0000 ==> EffAddr(inst, vals) - base == inst.imm)
            && Wrap(EffAddr(inst, vals) - base) == Wrap(inst.imm)
  {
    var base := if inst.Load? then vals[0] else vals[1];
    WrapPlus(base + inst.imm, -base);
  }

  /** The first result goes to the first destination, and every other register stays. */
  lemma ResultsLand(prog: Prog, s: Arch, r: Reg)
    requires WfProg(|s.regs|, prog) && r < |s.regs| && !prog(s.pc).RType?
    ensures WfInst(|s.regs|, prog(s.pc))
    ensures var inst := prog(s.pc); var ds := Dests(inst); var vs := Results(s.pc, inst, Operands(inst, s.regs), s.mem);
            RefStep(prog, s).regs[r] == if |ds| > 0 && r == ds[0] then vs[0]
                                        else if |ds| > 1 && r == ds[1] then vs[1] else s.regs[r]
  {
    hide Results, StoreBytes, WriteBytes;
  }

  /** In program order a word stored is the word the next instruction loads from the same place. */
  lemma StoreThenLoad(prog: Prog, s: Arch, d: Reg, b: Reg, r: Reg, imm: int)
    requires WfProg(|s.regs|, prog) && s.pend.None? && d < |s.regs| && b < |s.regs|
    requires prog(s.pc) == Store(Sw, [d, b], imm) && prog(Wrap(s.pc + 4)) == Load(Lw, [r], [b], imm)
    ensures r < |s.regs| && RefRun(prog, s, 2).regs == s.regs[r := s.regs[d]]
  {
    hide RefRun, RefStep, Stored, LoadValues, WfProg, Wrap;
    var ea, vals := Wrap(s.regs[b] + imm), [s.regs[d], s.regs[b]];
    AfterSw(prog, s, d, b, imm);
    AfterLw(prog, Arch(s.regs, Stored(s.mem, Sw, ea, vals), Wrap(s.pc + 4), None), b, r, imm);
    LoadAfterStore(s.mem, ea, vals, s.regs[b]);
    RunTwo(prog, s);
  }

  lemma RunTwo(prog: Prog, s: Arch)
    requires WfProg(|s.regs|, prog)
    ensures RefRun(prog, s, 2) == RefStep(prog, RefRun(prog, s, 1))
  {
  }

  lemma AfterLw(prog: Prog, s: Arch, b: Reg, r: Reg, imm: int)
    requires WfProg(|s.regs|, prog) && b < |s.regs| && prog(s.pc) == Load(Lw, [r], [b], imm)
    ensures r < |s.regs|
    ensures RefStep(prog, s).regs == s.regs[r := LoadValues(Lw, s.mem, Wrap(s.regs[b] + imm), s.regs[b])[0]]
  {
    hide LoadValues, RefStep, Wrap;
    var v := LoadValues(Lw, s.mem, Wrap(s.regs[b] + imm), s.regs[b])[0];
    assert WfInst(|s.regs|, prog(s.pc));
    assert Dests(prog(s.pc))[0] == r;
    hide WfProg;
    forall q | 0 <= q < |s.regs|
      ensures RefStep(prog, s).regs[q] == if q == r then v else s.regs[q]
    {
      LwReg(prog, s, b, r, imm, q);
    }
  }

  lemma LwReg(prog: Prog, s: Arch, b: Reg, r: Reg, imm: int, q: Reg)
    requires WfProg(|s.regs|, prog) && b < |s.regs| && q < |s.regs| && prog(s.pc) == Load(Lw, [r], [b], imm)
    ensures RefStep(prog, s).regs[q] ==
            if q == r then LoadValues(Lw, s.mem, Wrap(s.regs[b] + imm), s.regs[b])[0] else s.regs[q]
  {
    hide WfProg, Wrap, LoadValues, RefStep, Results, EffAddr;
    ResultsLand(prog, s, q);
    assert WfInst(|s.regs|, prog(s.pc)) && Dests(prog(s.pc)) == [r];
    assert Operands(prog(s.pc), s.regs) == [s.regs[b]];
    LwResult(s.pc, r, b, imm, s.regs[b], s.mem);
  }

  lemma LwResult(pc: Word, r: Reg, b: Reg, imm: int, base: Word, mem: Mem)
    ensures Results(pc, Load(Lw, [r], [b], imm), [base], mem) == LoadValues(Lw, mem, Wrap(base + imm), base)
  {
    hide LoadValues;
  }

  /** A store changes memory alone. */
  lemma StoreStep(prog: Prog, s: Arch)
    requires WfProg(|s.regs|, prog) && prog(s.pc).Store?
    ensures WfInst(|s.regs|, prog(s.pc))
    ensures var inst := prog(s.pc); var vals := Operands(inst, s.regs);
            RefStep(prog, s) == Arch(s.regs, Stored(s.mem, inst.sk, EffAddr(inst, vals), vals),
                                     if s.pend.Some? then s.pend.value else Wrap(s.pc + 4), None)
  {
    hide WriteBytes, StoreBytes, EffAddr, Wrap;
  }

  lemma AfterSw(prog: Prog, s: Arch, d: Reg, b: Reg, imm: int)
    requires WfProg(|s.regs|, prog) && s.pend.None? && d < |s.regs| && b < |s.regs|
    requires prog(s.pc) == Store(Sw, [d, b], imm)
    ensures RefRun(prog, s, 1) ==
            Arch(s.regs, Stored(s.mem, Sw, Wrap(s.regs[b] + imm), [s.regs[d], s.regs[b]]), Wrap(s.pc + 4), None)
  {
    SwOperands(d, b, imm, s.regs);
    hide Stored, WfProg, WfInst, Wrap, RefStep, RefRun, Operands, EffAddr;
    RunOne(prog, s);
    StoreStep(prog, s);
  }

  lemma SwOperands(d: Reg, b: Reg, imm: int, regs: seq<Word>)
    requires d < |regs| && b < |regs|
    ensures var inst := Store(Sw, [d, b], imm);
            && WfInst(|regs|, inst) && Operands(inst, regs) == [regs[d], regs[b]]
            && EffAddr(inst, Operands(inst, regs)) == Wrap(regs[b] + imm)
  {
  }

  lemma RunOne(prog: Prog, s: Arch)
    requires WfProg(|s.regs|, prog)
    ensures RefRun(prog, s, 1) == RefStep(prog, s)
  {
    assert RefRun(prog, s, 0) == s;
  }

  // ----- targets and links ------------------------------------------------------------------------------------------

  /** A branch goes its immediate, in words, away from the delay slot. */
  lemma BranchTargetExact(pc: Word, inst: Inst)
    requires inst.Branch?
    ensures 0 <= pc + 4 + 4 * inst.imm < 0x1_0000_0000 ==> BranchTarget(pc, inst) - (pc + 4) == 4 * inst.imm
    ensures Wrap(BranchTarget(pc, inst) - Wrap(pc + 4)) == Wrap(4 * inst.imm)
  {
    hide Wrap;
    var slot: int := Wrap(pc + 4);
    WrapPlus(pc + 4 + 4 * inst.imm, -slot);
    WrapMinus(4 * inst.imm, pc + 4);
    if 0 <= pc + 4 + 4 * inst.imm < 0x1_0000_0000 {
      WrapSmall(pc + 4 + 4 * inst.imm);
    }
  }

  lemma WrapSmall(a: int)
    requires 0 <= a < 0x1_0000_0000
    ensures Wrap(a) == a
  {
  }

  lemma WrapMinus(x: int, a: int)
    ensures Wrap(a + x - Wrap(a)) == Wrap(x)
  {
    WrapPlus(a, x - Wrap(a));
  }

  /** A taken branch goes on behind its slot at the address its immediate gives; one not taken falls through behind the
      slot, and a likely one without executing it. */
  lemma BranchInOrder(prog: Prog, s: Arch)
    requires WfProg(|s.regs|, prog) && prog(s.pc).Branch? && s.pend.None?
    requires !IsControl(prog(Wrap(s.pc + 4)))
    ensures WfInst(|s.regs|, prog(s.pc))
    ensures var inst := prog(s.pc); var taken := inst.cond(Operands(inst, s.regs));
            && (taken ==> RefRun(prog, s, 1).pc == Wrap(s.pc + 4) &&
                          RefRun(prog, s, 2).pc == Wrap(s.pc + 4 + 4 * inst.imm))
            && (!taken && !inst.likely ==> RefRun(prog, s, 1).pc == Wrap(s.pc + 4) &&
                                           RefRun(prog, s, 2).pc == Wrap(s.pc + 8))
            && (!taken && inst.likely ==> RefRun(prog, s, 1).pc == Wrap(s.pc + 8))
            && RefRun(prog, s, 1).regs == s.regs && RefRun(prog, s, 1).mem == s.mem
  {
    BranchStep(prog, s);
    hide RefStep, RefRun, Wrap, WfInst, Operands;
    RunOne(prog, s);
    if RunsSlot(prog, s) {
      AfterSlot(prog, s);
    }
  }

  lemma BranchStep(prog: Prog, s: Arch)
    requires WfProg(|s.regs|, prog) && prog(s.pc).Branch?
    ensures WfInst(|s.regs|, prog(s.pc))
    ensures var inst := prog(s.pc);
            && RefStep(prog, s).regs == s.regs && RefStep(prog, s).mem == s.mem
            && (inst.likely && !inst.cond(Operands(inst, s.regs)) ==> RefStep(prog, s).pc == Wrap(s.pc + 8))
  {
    hide Wrap, Operands, BranchTarget, JumpTarget;
  }

  /** j and jal take their target's low 28 bits from the instruction and the others from the delay slot's address. */
  lemma JumpTargetExact(pc: Word, inst: Inst)
    requires inst.Jump?
    ensures JumpTarget(pc, inst) % 0x1000_0000 == inst.jaddr % 0x1000_0000
    ensures JumpTarget(pc, inst) / 0x1000_0000 == Wrap(pc + 4) / 0x1000_0000
  {
  }

  /** jal and jalr leave the address behind their delay slot in the link register. */
  lemma LinkIsBehindSlot(prog: Prog, s: Arch)
    requires WfProg(|s.regs|, prog) && prog(s.pc).Jump? && (prog(s.pc).jk.Jal? || prog(s.pc).jk.Jalr?)
    ensures var link := prog(s.pc).dests[0]; var slot := RefStep(prog, s);
            slot.pc == Wrap(s.pc + 4) && slot.regs == s.regs[link := Wrap(slot.pc + 4)]
  {
    WrapPlus(s.pc + 4, 4);
  }

  /** A jr through the link register returns to the instruction behind the delay slot of the call. */
  lemma CallReturns(prog: Prog, s: Arch, t: Arch)
    requires WfProg(|s.regs|, prog) && prog(s.pc).Jump? && (prog(s.pc).jk.Jal? || prog(s.pc).jk.Jalr?)
    requires |t.regs| == |s.regs| && prog(t.pc).Jump? && prog(t.pc).jk.Jr? && prog(t.pc).srcs == prog(s.pc).dests
    requires !IsControl(prog(Wrap(t.pc + 4)))
    requires t.regs[prog(s.pc).dests[0]] == RefStep(prog, s).regs[prog(s.pc).dests[0]]
    ensures RefRun(prog, t, 2).pc == Wrap(RefStep(prog, s).pc + 4)
  {
    LinkIsBehindSlot(prog, s);
    AfterSlot(prog, t);
    hide RefStep, RefRun, Wrap;
    assert Operands(prog(t.pc), t.regs)[0] == t.regs[prog(t.pc).srcs[0]];
  }

  /** A two-result operation puts the first component in its first destination. */
  lemma AluResults(pc: Word, inst: Inst, vals: seq<Word>, mem: Mem)
    requires inst.Alu? && |vals| == |inst.srcs| && |inst.dests| <= 2
    ensures |inst.dests| > 0 ==> Results(pc, inst, vals, mem)[0] == inst.f(vals).0
    ensures |inst.dests| > 1 ==> Results(pc, inst, vals, mem)[1] == inst.f(vals).1
  {
  }
}
