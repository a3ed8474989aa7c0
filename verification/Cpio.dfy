/**
The newc archives of tools/guest-initrd.py: `build` writes one entry, `parse` cuts a stream into
entries.  Names are the bytes of the encoded name.
*/
module Cpio {

  import opened Bytes

  datatype Result<T> = Ok(value: T) | Err

  const HDR: nat := 110
  const U32: nat := 0x1_0000_0000

  /** 070701 */
  const MAGIC: seq<Byte> := [0x30, 0x37, 0x30, 0x37, 0x30, 0x31]

  /** TRAILER!!! */
  const TRAILER: seq<Byte> := [0x54, 0x52, 0x41, 0x49, 0x4C, 0x45, 0x52, 0x21, 0x21, 0x21]

  datatype Entry = Entry(
    name: seq<Byte>, mode: nat, data: seq<Byte>, uid: nat, gid: nat, mtime: nat, ino: nat, nlink: nat)

  /** What the parser keeps of an entry; on a stream that is cut short the data may be shorter than `size`. */
  datatype Item = Item(
    name: seq<Byte>, mode: nat, size: nat, data: seq<Byte>, uid: nat, gid: nat, mtime: nat, raw: seq<Byte>)

  // ---------------------------------------------------------------- numbers

  function HexDigit(d: nat): Byte
    requires d < 16
  {
    if d < 10 then 0x30 + d else 0x41 + (d - 10)
  }

  /** Digits of both cases are read. */
  function Unhex(b: Byte): (r: Result<nat>)
    ensures r.Ok? ==> r.value < 16
  {
    if 0x30 <= b <= 0x39 then Ok(b - 0x30)
    else if 0x41 <= b <= 0x46 then Ok(b - 0x41 + 10)
    else if 0x61 <= b <= 0x66 then Ok(b - 0x61 + 10)
    else Err
  }

  /** How many digits a number has. */
  function Digits(v: nat): (r: nat)
    ensures r >= 1
  {
    if v < 16 then 1 else 1 + Digits(v / 16)
  }

  function HexN(v: nat, k: nat): (r: seq<Byte>)
    ensures |r| == k
  {
    if k == 0 then [] else HexN(v / 16, k - 1) + [HexDigit(v % 16)]
  }

  /** %08X: eight digits, or as many as it takes. */
  function Hex(v: nat): seq<Byte> {
    HexN(v, Max(8, Digits(v)))
  }

  function ReadHex(s: seq<Byte>): Result<nat> {
    if s == [] then Ok(0) else
    var high := ReadHex(s[..|s| - 1]);
    var low := Unhex(s[|s| - 1]);
    if high.Ok? && low.Ok? then Ok(16 * high.value + low.value) else Err
  }

  lemma {:induction false} HexRoundTrip(v: nat, k: nat)
    requires Digits(v) <= k
    ensures ReadHex(HexN(v, k)) == Ok(v)
  {
    if k == 1 {
      assert HexN(v, 1) == [HexDigit(v)] && HexN(v, 1)[..0] == [];
    } else {
      assert HexN(v, k)[..k - 1] == HexN(v / 16, k - 1);
      HexRoundTrip(v / 16, k - 1);
    }
  }

  /** Eight digits are enough exactly for 32-bit numbers. */
  lemma EightDigits(v: nat)
    ensures Digits(v) <= 8 <==> v < U32
  {
    var a := v / 16;
    var b := a / 16;
    var c := b / 16;
    var d := c / 16;
    FourDigits(v);
    FourDigits(d);
    assert Digits(v) <= 4 || Digits(v) == 4 + Digits(d);
  }

  lemma FourDigits(v: nat)
    ensures Digits(v) <= 4 <==> v < 0x1_0000
    ensures v >= 0x1_0000 ==> Digits(v) == 4 + Digits(v / 16 / 16 / 16 / 16)
  {
    assert v >= 16 ==> Digits(v) == 1 + Digits(v / 16);
    assert v / 16 >= 16 ==> Digits(v / 16) == 1 + Digits(v / 16 / 16);
    assert v / 16 / 16 >= 16 ==> Digits(v / 16 / 16) == 1 + Digits(v / 16 / 16 / 16);
    assert v / 16 / 16 / 16 >= 16 ==> Digits(v / 16 / 16 / 16) == 1 + Digits(v / 16 / 16 / 16 / 16);
  }

  // ---------------------------------------------------------------- building

  /** Zero bytes up to the next multiple of four. */
  function Pad4(n: nat): (r: nat)
    ensures r < 4 && (n + r) % 4 == 0
  {
    (4 - n % 4) % 4
  }

  function Fields(fs: seq<nat>): seq<Byte> {
    if fs == [] then [] else Hex(fs[0]) + Fields(fs[1..])
  }

  function FieldsOf(e: Entry): seq<nat> {
    [e.ino, e.mode, e.uid, e.gid, e.nlink, e.mtime, |e.data|, 0, 0, 0, 0, |e.name| + 1, 0]
  }

  function Header(e: Entry): seq<Byte> {
    MAGIC + Fields(FieldsOf(e))
  }

  /** build: header, name with its NUL, padding, data, padding. */
  function Build(e: Entry): seq<Byte> {
    var named := Header(e) + e.name + [0];
    var out := named + Zeros(Pad4(|named|)) + e.data;
    out + Zeros(Pad4(|out|))
  }

  predicate Small(fs: seq<nat>) {
    forall i :: 0 <= i < |fs| ==> fs[i] < U32
  }

  /** Every number of the header is a 32-bit number. */
  predicate Fits(e: Entry) {
    Small(FieldsOf(e))
  }

  lemma {:induction false} FieldsLength(fs: seq<nat>)
    ensures |Fields(fs)| >= 8 * |fs|
    ensures |Fields(fs)| == 8 * |fs| <==> Small(fs)
  {
    if fs != [] {
      FieldsLength(fs[1..]);
      EightDigits(fs[0]);
      assert fs == [fs[0]] + fs[1..];
      assert Small(fs) <==> fs[0] < U32 && Small(fs[1..]) by {
        if fs[0] < U32 && Small(fs[1..]) {
          forall i | 0 <= i < |fs| ensures fs[i] < U32 { assert i > 0 ==> fs[i] == fs[1..][i - 1]; }
        }
      }
    }
  }

  /** The header has its fixed length exactly when every number fits in 32 bits. */
  lemma HeaderFixed(e: Entry)
    ensures |Header(e)| == HDR <==> Fits(e)
  {
    FieldsLength(FieldsOf(e));
  }

  // ---------------------------------------------------------------- parsing

  /** A slice clipped to the string, as Python takes it. */
  function Slice(s: seq<Byte>, a: nat, b: int): seq<Byte> {
    if a >= |s| || b <= a then [] else s[a..Min(b, |s|)]
  }

  function ReadFields(buf: seq<Byte>, at: nat, n: nat): (r: Result<seq<nat>>)
    ensures r.Ok? ==> |r.value| == n
    decreases n
  {
    if n == 0 then Ok([]) else
    var x := ReadHex(Slice(buf, at, at + 8));
    var rest := ReadFields(buf, at + 8, n - 1);
    if x.Ok? && rest.Ok? then Ok([x.value] + rest.value) else Err
  }

  /** One turn of the loop: the entry at an offset and the offset after it. */
  function ParseAt(buf: seq<Byte>, off: nat): (r: Result<(Item, nat)>)
    ensures r.Ok? ==> r.value.1 >= off + HDR
  {
    if Slice(buf, off, off + 6) != MAGIC then Err else
    var f := ReadFields(buf, off + 6, 13);
    if f.Err? then Err else
    var (namesize, size) := (f.value[11], f.value[6]);
    var nstart := off + HDR;
    var name := Slice(buf, nstart, nstart + namesize - 1);
    var dstart := nstart + namesize + Pad4(nstart + namesize);
    var data := Slice(buf, dstart, dstart + size);
    var end := dstart + size + Pad4(dstart + size);
    Ok((Item(name, f.value[1], size, data, f.value[2], f.value[3], f.value[5], Slice(buf, off, end)), end))
  }

  /** parse, from an offset on. */
  function ParseFrom(buf: seq<Byte>, off: nat): Result<seq<Item>>
    decreases |buf| - off
  {
    if off + HDR > |buf| then Ok([]) else
    var one := ParseAt(buf, off);
    if one.Err? then Err
    else if one.value.0.name == TRAILER then Ok([one.value.0])
    else
      var rest := ParseFrom(buf, one.value.1);
      if rest.Ok? then Ok([one.value.0] + rest.value) else Err
  }

  /** The loop of parse. */
  method Parse(buf: seq<Byte>) returns (r: Result<seq<Item>>)
    ensures r == ParseFrom(buf, 0)
  {
    hide ParseAt;
    var out: seq<Item> := [];
    var off: nat := 0;
    assert ParseFrom(buf, 0).Ok? ==> out + ParseFrom(buf, 0).value == ParseFrom(buf, 0).value;
    while off + HDR <= |buf|
      invariant ParseFrom(buf, 0) ==
                (var rest := ParseFrom(buf, off); if rest.Ok? then Ok(out + rest.value) else Err)
      decreases |buf| - off
    {
      var one := ParseAt(buf, off);
      if one.Err? {
        return Err;
      }
      out := out + [one.value.0];
      off := one.value.1;
      if one.value.0.name == TRAILER {
        return Ok(out);
      }
      ghost var rest := ParseFrom(buf, off);
      assert rest.Ok? ==> out + rest.value == out[..|out| - 1] + ([one.value.0] + rest.value);
    }
    assert out + [] == out;
    return Ok(out);
  }

  // ---------------------------------------------------------------- round trip

  lemma SliceMiddle(a: seq<Byte>, b: seq<Byte>, c: seq<Byte>)
    ensures Slice(a + b + c, |a|, |a| + |b|) == b
  {
  }

  lemma HexEight(v: nat)
    requires v < U32
    ensures |Hex(v)| == 8 && ReadHex(Hex(v)) == Ok(v)
  {
    EightDigits(v);
    HexRoundTrip(v, 8);
  }

  lemma Regroup(a: seq<Byte>, b: seq<Byte>, c: seq<Byte>, d: seq<Byte>)
    ensures a + (b + c) + d == a + b + (c + d) == (a + b) + c + d
  {
  }

  lemma {:induction false} FieldsRoundTrip(pre: seq<Byte>, fs: seq<nat>, rest: seq<Byte>)
    requires Small(fs)
    ensures ReadFields(pre + Fields(fs) + rest, |pre|, |fs|) == Ok(fs)
    decreases |fs|
  {
    hide Hex, ReadHex, Slice;
    if fs != [] {
      var h := Hex(fs[0]);
      HexEight(fs[0]);
      Regroup(pre, h, Fields(fs[1..]), rest);
      SliceMiddle(pre, h, Fields(fs[1..]) + rest);
      FieldsRoundTrip(pre + h, fs[1..], rest);
      assert fs == [fs[0]] + fs[1..];
    }
  }

  function ItemOf(e: Entry): Item {
    Item(e.name, e.mode, |e.data|, e.data, e.uid, e.gid, e.mtime, Build(e))
  }

  /** Padding counted from the start of the entry is padding counted from the start of the stream. */
  lemma SamePadding(base: nat, n: nat)
    requires base % 4 == 0
    ensures Pad4(base + n) == Pad4(n)
  {
  }

  lemma BuildSize(e: Entry)
    ensures |Build(e)| % 4 == 0 && |Build(e)| >= HDR
  {
    FieldsLength(FieldsOf(e));
  }

  /** The same bytes, cut where the parser looks. */
  lemma Cuts(pre: seq<Byte>, h: seq<Byte>, name: seq<Byte>, pad1: seq<Byte>, data: seq<Byte>, pad2: seq<Byte>,
             rest: seq<Byte>)
    ensures var buf := pre + (h + name + [0] + pad1 + data + pad2) + rest;
            && buf == pre + h + (name + [0] + pad1 + data + pad2 + rest)
            && buf == (pre + h) + name + ([0] + pad1 + data + pad2 + rest)
            && buf == (pre + (h + name + [0]) + pad1) + data + (pad2 + rest)
  {
  }

  lemma HeaderRoundTrip(pre: seq<Byte>, e: Entry, rest: seq<Byte>)
    requires Fits(e)
    ensures Slice(pre + Header(e) + rest, |pre|, |pre| + 6) == MAGIC
    ensures ReadFields(pre + Header(e) + rest, |pre| + 6, 13) == Ok(FieldsOf(e))
  {
    hide Fields, ReadFields, Slice;
    var fs := FieldsOf(e);
    Regroup(pre, MAGIC, Fields(fs), rest);
    SliceMiddle(pre, MAGIC, Fields(fs) + rest);
    FieldsRoundTrip(pre + MAGIC, fs, rest);
  }

  /** The number in the eight characters at an offset of a header. */
  function FieldAt(h: seq<Byte>, at: nat): Result<nat> {
    ReadHex(Slice(h, at, at + 8))
  }

  lemma {:induction false} FieldIsRead(buf: seq<Byte>, at: nat, n: nat, i: nat)
    requires ReadFields(buf, at, n).Ok? && i < n
    ensures FieldAt(buf, at + 8 * i) == Ok(ReadFields(buf, at, n).value[i])
    decreases n
  {
    hide ReadHex, Slice;
    if i > 0 {
      FieldIsRead(buf, at + 8, n - 1, i - 1);
    }
  }

  /** The header has every field where the newc format puts it. */
  lemma HeaderPlaces(e: Entry)
    requires Fits(e)
    ensures var h := Header(e);
            && FieldAt(h, 6) == Ok(e.ino) && FieldAt(h, 14) == Ok(e.mode) && FieldAt(h, 22) == Ok(e.uid)
            && FieldAt(h, 30) == Ok(e.gid) && FieldAt(h, 38) == Ok(e.nlink) && FieldAt(h, 46) == Ok(e.mtime)
            && FieldAt(h, 54) == Ok(|e.data|) && FieldAt(h, 94) == Ok(|e.name| + 1) && FieldAt(h, 102) == Ok(0)
            && FieldAt(h, 62) == FieldAt(h, 70) == FieldAt(h, 78) == FieldAt(h, 86) == Ok(0)
  {
    hide ReadFields, FieldAt, Slice, Header;
    var h := Header(e);
    HeaderRoundTrip([], e, []);
    assert [] + h + [] == h;
    FieldIsRead(h, 6, 13, 0);
    FieldIsRead(h, 6, 13, 1);
    FieldIsRead(h, 6, 13, 2);
    FieldIsRead(h, 6, 13, 3);
    FieldIsRead(h, 6, 13, 4);
    FieldIsRead(h, 6, 13, 5);
    FieldIsRead(h, 6, 13, 6);
    FieldIsRead(h, 6, 13, 7);
    FieldIsRead(h, 6, 13, 8);
    FieldIsRead(h, 6, 13, 9);
    FieldIsRead(h, 6, 13, 10);
    FieldIsRead(h, 6, 13, 11);
    FieldIsRead(h, 6, 13, 12);
  }

  /** An entry built anywhere on a multiple of four is read back, and the parser stands right behind it. */
  lemma EntryRoundTrip(pre: seq<Byte>, e: Entry, rest: seq<Byte>)
    requires |pre| % 4 == 0 && Fits(e)
    ensures ParseAt(pre + Build(e) + rest, |pre|) == Ok((ItemOf(e), |pre| + |Build(e)|))
  {
    hide Slice, ReadFields, Header, Pad4;
    HeaderFixed(e);
    var named := Header(e) + e.name + [0];
    var pad1 := Zeros(Pad4(|named|));
    var out := named + pad1 + e.data;
    var pad2 := Zeros(Pad4(|out|));
    Cuts(pre, Header(e), e.name, pad1, e.data, pad2, rest);
    HeaderRoundTrip(pre, e, e.name + [0] + pad1 + e.data + pad2 + rest);
    SliceMiddle(pre + Header(e), e.name, [0] + pad1 + e.data + pad2 + rest);
    SliceMiddle(pre + named + pad1, e.data, pad2 + rest);
    SliceMiddle(pre, Build(e), rest);
    SamePadding(|pre|, |named|);
    SamePadding(|pre|, |out|);
  }

  function Archive(es: seq<Entry>): seq<Byte> {
    if es == [] then [] else Build(es[0]) + Archive(es[1..])
  }

  /** The entries up to and with the first one named like the trailer. */
  function Upto(es: seq<Entry>): seq<Entry> {
    if es == [] then [] else if es[0].name == TRAILER then [es[0]] else [es[0]] + Upto(es[1..])
  }

  function Items(es: seq<Entry>): seq<Item> {
    seq(|es|, i requires 0 <= i < |es| => ItemOf(es[i]))
  }

  /**
  Parsing any entries built one after the other gives back exactly those up to the trailer, with
  their names, modes, owners, times and data; what follows the trailer does not matter.
  */
  lemma {:induction false} ArchiveRoundTrip(pre: seq<Byte>, es: seq<Entry>, rest: seq<Byte>)
    requires |pre| % 4 == 0 && forall i :: 0 <= i < |es| ==> Fits(es[i])
    requires |rest| < HDR || exists i :: 0 <= i < |es| && es[i].name == TRAILER
    ensures ParseFrom(pre + Archive(es) + rest, |pre|) == Ok(Items(Upto(es)))
    decreases |es|
  {
    hide Build, ParseAt;
    if es != [] {
      var e := es[0];
      Regroup(pre, Build(e), Archive(es[1..]), rest);
      EntryRoundTrip(pre, e, Archive(es[1..]) + rest);
      BuildSize(e);
      if e.name != TRAILER {
        assert es == [e] + es[1..];
        ArchiveRoundTrip(pre + Build(e), es[1..], rest);
        assert Items(Upto(es)) == [ItemOf(e)] + Items(Upto(es[1..]));
      } else {
        assert Items(Upto(es)) == [ItemOf(e)];
      }
    }
  }

  /** The stream the tool writes: entries with other names, then the trailer. */
  lemma InitrdRoundTrip(es: seq<Entry>, trailer: Entry, rest: seq<Byte>)
    requires Fits(trailer) && trailer.name == TRAILER
    requires forall i :: 0 <= i < |es| ==> Fits(es[i]) && es[i].name != TRAILER
    ensures ParseFrom(Archive(es + [trailer]) + rest, 0) == Ok(Items(es + [trailer]))
  {
    hide ParseFrom, Archive;
    var all := es + [trailer];
    assert all[|es|].name == TRAILER;
    ArchiveRoundTrip([], all, rest);
    assert [] + Archive(all) + rest == Archive(all) + rest;
    WholeUpto(es, trailer);
  }

  lemma {:induction false} WholeUpto(es: seq<Entry>, trailer: Entry)
    requires trailer.name == TRAILER && forall i :: 0 <= i < |es| ==> es[i].name != TRAILER
    ensures Upto(es + [trailer]) == es + [trailer]
  {
    var all := es + [trailer];
    if es == [] {
      assert all == [trailer];
    } else {
      assert all[1..] == es[1..] + [trailer];
      WholeUpto(es[1..], trailer);
    }
  }
}
