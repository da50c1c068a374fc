/** Bit-level facts about one flag word: what the shift-and-mask writes of khash.h leave at a bit position. */
module Bits {

  lemma SetDelHere(w: bv32, s: bv32)
    requires s <= 30
    ensures ((w | (1 << s)) >> s) & 2 == (w >> s) & 2 && ((w | (1 << s)) >> s) & 1 == 1
  {
  }

  lemma ClearEmptyHere(w: bv32, s: bv32)
    requires s <= 30
    ensures ((w & !(2 << s)) >> s) & 2 == 0
  {
    assert ((2 as bv32) << s) >> s == 2;
    assert (!((2 as bv32) << s) >> s) & 2 == 0;
  }

  lemma ClearEmptyKeepsDel(w: bv32, s: bv32)
    requires s <= 30
    ensures ((w & !(2 << s)) >> s) & 1 == (w >> s) & 1
  {
  }

  lemma ClearBothHere(w: bv32, s: bv32)
    requires s <= 30
    ensures ((w & !(3 << s)) >> s) & 2 == 0 && ((w & !(3 << s)) >> s) & 1 == 0
  {
  }

  lemma SetDelElsewhere(w: bv32, s: bv32, t: bv32)
    requires s <= 30 && t <= 30 && s & 1 == 0 && t & 1 == 0 && s != t
    ensures ((w | (1 << s)) >> t) & 2 == (w >> t) & 2 && ((w | (1 << s)) >> t) & 1 == (w >> t) & 1
  {
  }

  lemma ClearEmptyElsewhere(w: bv32, s: bv32, t: bv32)
    requires s <= 30 && t <= 30 && s & 1 == 0 && t & 1 == 0 && s != t
    ensures ((w & !(2 << s)) >> t) & 2 == (w >> t) & 2 && ((w & !(2 << s)) >> t) & 1 == (w >> t) & 1
  {
  }

  lemma ClearBothElsewhere(w: bv32, s: bv32, t: bv32)
    requires s <= 30 && t <= 30 && s & 1 == 0 && t & 1 == 0 && s != t
    ensures ((w & !(3 << s)) >> t) & 2 == (w >> t) & 2 && ((w & !(3 << s)) >> t) & 1 == (w >> t) & 1
  {
  }

  lemma Either(x: bv32)
    ensures x & 3 != 0 <==> x & 2 != 0 || x & 1 != 0
  {
  }
}

/** The packed flag words of khash.h: two status bits per bucket, sixteen buckets to a 32-bit word. */
module Flags {
  import Bits

  /** The two status bits of one bucket: bit 1 says "empty", bit 0 says "deleted". */
  datatype Mark = Mark(empty: bool, deleted: bool)

  const EMPTY := Mark(true, false)
  const DELETED := Mark(false, true)
  const LIVE := Mark(false, false)

  /** A word of the 0xaa fill. */
  const FILL: bv32 := 0xaaaa_aaaa

  /** Bit position of bucket i inside its word. */
  function Shift(i: nat): (s: bv32)
    ensures s <= 30 && s & 1 == 0
  {
    var k := i % 16;
    if k == 0 then 0 else if k == 1 then 2 else if k == 2 then 4 else if k == 3 then 6
    else if k == 4 then 8 else if k == 5 then 10 else if k == 6 then 12 else if k == 7 then 14
    else if k == 8 then 16 else if k == 9 then 18 else if k == 10 then 20 else if k == 11 then 22
    else if k == 12 then 24 else if k == 13 then 26 else if k == 14 then 28 else 30
  }

  /** The number of words that hold the flags of m buckets. */
  function FSize(m: nat): (w: nat)
    ensures m % 16 == 0 || m < 16 ==> forall i: nat :: i < m ==> i / 16 < w
  {
    if m < 16 then 1 else m / 16
  }

  /** The two bits of w that belong to bucket i. */
  function ReadMark(w: bv32, i: nat): Mark {
    Mark((w >> Shift(i)) & 2 != 0, (w >> Shift(i)) & 1 != 0)
  }

  predicate IsEither(w: bv32, i: nat)
    ensures IsEither(w, i) <==> ReadMark(w, i) != LIVE
  {
    Bits.Either(w >> Shift(i));
    (w >> Shift(i)) & 3 != 0
  }

  function SetDel(w: bv32, i: nat): bv32 { w | (1 << Shift(i)) }
  function ClearEmpty(w: bv32, i: nat): bv32 { w & !(2 << Shift(i)) }
  function ClearBoth(w: bv32, i: nat): bv32 { w & !(3 << Shift(i)) }

  lemma SetDelMark(w: bv32, i: nat)
    ensures ReadMark(SetDel(w, i), i) == ReadMark(w, i).(deleted := true)
  {
    Bits.SetDelHere(w, Shift(i));
  }

  lemma SetDelOthers(w: bv32, i: nat, j: nat)
    requires i % 16 != j % 16
    ensures ReadMark(SetDel(w, i), j) == ReadMark(w, j)
  {
    Bits.SetDelElsewhere(w, Shift(i), Shift(j));
  }

  lemma ClearEmptyMark(w: bv32, i: nat)
    ensures ReadMark(ClearEmpty(w, i), i) == ReadMark(w, i).(empty := false)
  {
    Bits.ClearEmptyHere(w, Shift(i));
    Bits.ClearEmptyKeepsDel(w, Shift(i));
  }

  lemma ClearEmptyOthers(w: bv32, i: nat, j: nat)
    requires i % 16 != j % 16
    ensures ReadMark(ClearEmpty(w, i), j) == ReadMark(w, j)
  {
    Bits.ClearEmptyElsewhere(w, Shift(i), Shift(j));
  }

  lemma ClearBothMark(w: bv32, i: nat)
    ensures ReadMark(ClearBoth(w, i), i) == LIVE
  {
    Bits.ClearBothHere(w, Shift(i));
  }

  lemma ClearBothOthers(w: bv32, i: nat, j: nat)
    requires i % 16 != j % 16
    ensures ReadMark(ClearBoth(w, i), j) == ReadMark(w, j)
  {
    Bits.ClearBothElsewhere(w, Shift(i), Shift(j));
  }

  lemma FillIsEmpty(i: nat)
    ensures ReadMark(FILL, i) == EMPTY
  {
  }

  /** The mark of bucket i in a sequence of words. */
  function WordMark(ws: seq<bv32>, i: nat): Mark
    requires i < 16 * |ws|
  {
    ReadMark(ws[i / 16], i)
  }

  /** What the words say about buckets 0 .. n-1. Clients see a plain sequence of marks; the bits behind
      one mark come into view only where WordMark is mentioned. */
  ghost function Marks(ws: seq<bv32>, n: nat): (m: seq<Mark>)
    requires n <= 16 * |ws|
    ensures |m| == n
    ensures forall i: nat {:trigger WordMark(ws, i)} :: i < n ==> m[i] == WordMark(ws, i)
  {
    var all := seq(n, i requires 0 <= i < n => WordMark(ws, i));
    var m :| |m| == n && forall i: nat {:trigger WordMark(ws, i)} :: i < n ==> m[i] == WordMark(ws, i);
    m
  }

  /** `__ac_isempty` and `__ac_isdel` of bucket i. */
  method Read(flags: array<bv32>, i: nat, ghost n: nat) returns (m: Mark)
    requires i < n <= 16 * flags.Length
    ensures m == Marks(flags[..], n)[i]
  {
    assert WordMark(flags[..], i) == ReadMark(flags[i / 16], i);
    m := ReadMark(flags[i / 16], i);
  }

  /** `__ac_iseither` of bucket i. */
  method ReadEither(flags: array<bv32>, i: nat, ghost n: nat) returns (either: bool)
    requires i < n <= 16 * flags.Length
    ensures either <==> Marks(flags[..], n)[i] != LIVE
  {
    assert WordMark(flags[..], i) == ReadMark(flags[i / 16], i);
    either := IsEither(flags[i / 16], i);
  }

  /** Changing one word so that only bucket i's bits change is one update of the marks. */
  lemma WordUpdate(ws: seq<bv32>, n: nat, i: nat, w: bv32, m: Mark)
    requires n <= 16 * |ws| && i < n
    requires ReadMark(w, i) == m
    requires forall j: nat :: j % 16 != i % 16 ==> ReadMark(w, j) == ReadMark(ws[i / 16], j)
    ensures Marks(ws[i / 16 := w], n) == Marks(ws, n)[i := m]
  {
    var after, want := Marks(ws[i / 16 := w], n), Marks(ws, n)[i := m];
    forall j: nat | j < n
      ensures after[j] == want[j]
    {
      assert WordMark(ws, j) == ReadMark(ws[j / 16], j);
      assert WordMark(ws[i / 16 := w], j) == ReadMark(ws[i / 16 := w][j / 16], j);
      if j / 16 == i / 16 && j != i {
        assert j % 16 != i % 16;
      }
    }
  }

  /** `__ac_set_isdel_true` */
  method SetIsDelTrue(flags: array<bv32>, i: nat, ghost n: nat)
    requires i < n <= 16 * flags.Length
    modifies flags
    ensures Marks(flags[..], n) == old(Marks(flags[..], n)[i := Marks(flags[..], n)[i].(deleted := true)])
  {
    ghost var ws, w := flags[..], flags[i / 16];
    SetDelMark(w, i);
    forall j: nat | j % 16 != i % 16
      ensures ReadMark(SetDel(w, i), j) == ReadMark(w, j)
    {
      SetDelOthers(w, i, j);
    }
    assert WordMark(ws, i) == ReadMark(w, i);
    WordUpdate(ws, n, i, SetDel(w, i), ReadMark(w, i).(deleted := true));
    flags[i / 16] := SetDel(flags[i / 16], i);
    assert flags[..] == ws[i / 16 := SetDel(w, i)];
  }

  /** `__ac_set_isempty_false` */
  method SetIsEmptyFalse(flags: array<bv32>, i: nat, ghost n: nat)
    requires i < n <= 16 * flags.Length
    modifies flags
    ensures Marks(flags[..], n) == old(Marks(flags[..], n)[i := Marks(flags[..], n)[i].(empty := false)])
  {
    ghost var ws, w := flags[..], flags[i / 16];
    ClearEmptyMark(w, i);
    forall j: nat | j % 16 != i % 16
      ensures ReadMark(ClearEmpty(w, i), j) == ReadMark(w, j)
    {
      ClearEmptyOthers(w, i, j);
    }
    assert WordMark(ws, i) == ReadMark(w, i);
    WordUpdate(ws, n, i, ClearEmpty(w, i), ReadMark(w, i).(empty := false));
    flags[i / 16] := ClearEmpty(flags[i / 16], i);
    assert flags[..] == ws[i / 16 := ClearEmpty(w, i)];
  }

  /** `__ac_set_isboth_false` */
  method SetIsBothFalse(flags: array<bv32>, i: nat, ghost n: nat)
    requires i < n <= 16 * flags.Length
    modifies flags
    ensures Marks(flags[..], n) == old(Marks(flags[..], n)[i := LIVE])
  {
    ghost var ws, w := flags[..], flags[i / 16];
    ClearBothMark(w, i);
    forall j: nat | j % 16 != i % 16
      ensures ReadMark(ClearBoth(w, i), j) == ReadMark(w, j)
    {
      ClearBothOthers(w, i, j);
    }
    assert WordMark(ws, i) == ReadMark(w, i);
    WordUpdate(ws, n, i, ClearBoth(w, i), LIVE);
    flags[i / 16] := ClearBoth(flags[i / 16], i);
    assert flags[..] == ws[i / 16 := ClearBoth(w, i)];
  }

  ghost function EmptyMarks(n: nat): (m: seq<Mark>)
    ensures |m| == n && forall i :: 0 <= i < n ==> m[i] == EMPTY
  {
    seq(n, _ => EMPTY)
  }

  /** The memset with 0xaa over the words of n buckets: every bucket becomes empty. */
  method FillEmpty(flags: array<bv32>, n: nat)
    requires FSize(n) <= flags.Length && n <= 16 * FSize(n)
    modifies flags
    ensures Marks(flags[..], n) == EmptyMarks(n)
  {
    for k := 0 to FSize(n)
      invariant forall j :: 0 <= j < k ==> flags[j] == FILL
    {
      flags[k] := FILL;
    }
    forall i: nat | i < n
      ensures Marks(flags[..], n)[i] == EMPTY
    {
      FillIsEmpty(i);
      assert WordMark(flags[..], i) == ReadMark(flags[i / 16], i);
    }
  }
}
