/**
The formatter (lib/vsnprintf.c) and the number reader (include/string.h, atol).  A string is its
characters without the terminating NUL.  An argument is the value the conversion receives, so the
width modifiers l, z and t only have to be skipped.
*/
module Printf {

  import opened Bytes

  datatype Arg = Int(n: int) | Uint(u: nat) | Char(c: char) | Str(s: string)

  const U64: nat := 0x1_0000_0000_0000_0000
  const I64: nat := 0x8000_0000_0000_0000

  // ---------------------------------------------------------------- numbers in digits

  function Digit(d: nat): char
    requires d < 16
  {
    "0123456789abcdef"[d]
  }

  /** A number without its lowest digit, and that digit. */
  function High(n: nat, base: nat): (r: nat)
    requires base >= 2
    ensures n > 0 ==> r < n
  {
    var q := n / base;
    Halves(n, base, q, n % base);
    q
  }

  lemma Halves(n: nat, base: nat, q: nat, r: nat)
    requires base >= 2 && n == q * base + r
    ensures n > 0 ==> q < n
  {
    Larger(2, base, q);
  }

  function Low(n: nat, base: nat): (r: nat)
    requires base >= 2
    ensures r < base
  {
    n % base
  }

  /** The digits, highest first; none for zero. */
  function Digits(n: nat, base: nat): string
    requires 2 <= base <= 16
  {
    if n == 0 then "" else Digits(High(n, base), base) + [Digit(Low(n, base))]
  }

  /** What print_int prints before padding. */
  function IntText(n: int, base: nat): string
    requires 2 <= base <= 16
  {
    if n == 0 then "0" else if n < 0 then "-" + Digits(-n, base) else Digits(n, base)
  }

  /** How far the digits of a 64-bit number go. */
  lemma DigitsFit(n: nat)
    requires n < U64
    ensures |Digits(n, 10)| <= 20 && |Digits(n, 16)| <= 16
    ensures n < I64 ==> |Digits(n, 10)| <= 19
  {
    Powers();
    AtMost(n, 10, 20);
    AtMost(n, 16, 16);
    if n < I64 {
      AtMost(n, 10, 19);
    }
  }

  function Power(base: nat, k: nat): nat {
    if k == 0 then 1 else base * Power(base, k - 1)
  }

  lemma Powers()
    ensures Power(10, 19) >= I64 && Power(10, 20) >= U64 && Power(16, 16) >= U64
  {
    Four(10, 0);
    Four(10, 4);
    Four(10, 8);
    Four(10, 12);
    Four(10, 16);
    assert Power(10, 20) == 10 * Power(10, 19);
    Four(16, 0);
    Four(16, 4);
    Four(16, 8);
    Four(16, 12);
  }

  lemma Four(base: nat, k: nat)
    ensures Power(base, k + 4) == base * (base * (base * (base * Power(base, k))))
  {
    assert Power(base, k + 2) == base * Power(base, k + 1);
  }

  lemma {:induction false} AtMost(n: nat, base: nat, k: nat)
    requires 2 <= base <= 16 && n < Power(base, k)
    ensures |Digits(n, base)| <= k
  {
    if n > 0 {
      assert k > 0 && n < base * Power(base, k - 1);
      hide Power, Digit, High, Low;
      Shrinks(n, base, Power(base, k - 1));
      AtMost(High(n, base), base, k - 1);
    }
  }

  lemma Shrinks(n: nat, base: nat, p: nat)
    requires base >= 2 && n < base * p
    ensures High(n, base) < p
  {
    assert n == n / base * base + n % base;
    Larger(p, n / base, base);
  }

  lemma Larger(a: nat, b: nat, m: nat)
    ensures a <= b ==> a * m <= b * m
  {
  }

  // ---------------------------------------------------------------- reading a number

  predicate IsDigit(c: char) { '0' <= c <= '9' }

  function Value(c: char): nat
    requires IsDigit(c)
  {
    (c - '0') as nat
  }

  /** The digits from the front of s on, after what has been read. */
  function Read(acc: int, s: string): int
    decreases |s|
  {
    if s == "" || !IsDigit(s[0]) then acc else Read(acc * 10 + Value(s[0]), s[1..])
  }

  function SkipBlanks(s: string): string {
    if s != "" && (s[0] == ' ' || s[0] == '\t') then SkipBlanks(s[1..]) else s
  }

  /** atol */
  function Atol(s: string): int {
    var t := SkipBlanks(s);
    if t != "" && t[0] == '-' then -Read(0, t[1..])
    else if t != "" && t[0] == '+' then Read(0, t[1..])
    else Read(0, t)
  }

  lemma {:induction false} ReadLast(acc: int, s: string, c: char)
    requires IsDigit(c) && forall i :: 0 <= i < |s| ==> IsDigit(s[i])
    ensures Read(acc, s + [c]) == Read(acc, s) * 10 + Value(c)
    decreases |s|
  {
    if s == "" {
      assert s + [c] == [c] && [c][1..] == "";
    } else {
      assert (s + [c])[1..] == s[1..] + [c];
      ReadLast(acc * 10 + Value(s[0]), s[1..], c);
    }
  }

  lemma DigitValue(d: nat)
    requires d < 10
    ensures IsDigit(Digit(d)) && Value(Digit(d)) == d
  {
  }

  lemma {:induction false} ReadDigits(n: nat)
    ensures forall i :: 0 <= i < |Digits(n, 10)| ==> IsDigit(Digits(n, 10)[i])
    ensures Read(0, Digits(n, 10)) == n
    ensures n > 0 ==> Digits(n, 10) != ""
  {
    if n > 0 {
      ReadDigits(n / 10);
      DigitValue(n % 10);
      ReadLast(0, Digits(n / 10, 10), Digit(n % 10));
    }
  }

  /** atol undoes the decimal rendering of every number. */
  lemma AtolRoundTrip(n: int)
    ensures Atol(IntText(n, 10)) == n
  {
    var s := IntText(n, 10);
    ReadDigits(if n < 0 then -n else n);
    if n < 0 {
      assert s[1..] == Digits(-n, 10);
    } else if n == 0 {
      DigitValue(0);
      assert s == "0" && s[1..] == "";
    } else {
      assert IsDigit(s[0]);
    }
  }

  // ---------------------------------------------------------------- padding

  function Times(k: int, c: char): (r: string)
    ensures |r| == if k < 0 then 0 else k
  {
    seq(if k < 0 then 0 else k, _ => c)
  }

  /** print_str: to the right in a positive width, to the left in a negative one, with spaces there. */
  function Justified(s: string, width: int, pad: char): string {
    if width > 0 then Times(width - |s|, pad) + s else s + Times(-width - |s|, ' ')
  }

  /** The padded text is as long as the width or the text, whichever is longer, and holds the text. */
  lemma JustifiedLength(s: string, width: int, pad: char)
    ensures var w := if width < 0 then -width else width;
            |Justified(s, width, pad)| == if w > |s| then w else |s|
    ensures var p := Justified(s, width, pad);
            if width > 0 then p[|p| - |s|..] == s else p[..|s|] == s
  {
  }

  /** print_unsigned, prefix and padding included. */
  function Unsigned(n: nat, base: nat, alt: bool, width: int, pad: char): string
    requires 2 <= base <= 16
  {
    if n == 0 then Justified("0", width, pad)
    else if !(alt && base == 16) then Justified(Digits(n, base), width, pad)
    else if pad == '0' then
      var w := if width > 2 then width - 2 else if width > 0 then 0 else width;
      "0x" + Justified(Digits(n, base), w, pad)
    else Justified("0x" + Digits(n, base), width, pad)
  }

  // ---------------------------------------------------------------- the format

  /** How many characters fmtnum takes: a sign and digits. */
  function NumLength(f: string): (r: nat)
    ensures r <= |f|
  {
    if f != "" && f[0] == '-' then 1 + DigitRun(f[1..]) else DigitRun(f)
  }

  function DigitRun(f: string): (r: nat)
    ensures r <= |f|
    ensures f != "" && IsDigit(f[0]) ==> r > 0
  {
    if f != "" && IsDigit(f[0]) then 1 + DigitRun(f[1..]) else 0
  }

  /**
  One conversion after its percent sign: what it prints, what is left of format and arguments, and
  whether it is defined at all.
  */
  datatype Done = Done(out: string, fmt: string, args: seq<Arg>, ok: bool)

  function IntArg(args: seq<Arg>): int { if args != [] && args[0].Int? then args[0].n else 0 }
  function UintArg(args: seq<Arg>): nat { if args != [] && args[0].Uint? then args[0].u else 0 }
  function CharArg(args: seq<Arg>): char { if args != [] && args[0].Char? then args[0].c else '\0' }
  function StrArg(args: seq<Arg>): string { if args != [] && args[0].Str? then args[0].s else "" }
  function Tail(args: seq<Arg>): seq<Arg> { if args == [] then [] else args[1..] }

  /** The letters that take an argument. */
  predicate Takes(c: char) { c == 'c' || c == 'd' || c == 'u' || c == 'x' || c == 'p' || c == 's' }

  /** What a conversion letter prints. */
  function Letter(c: char, args: seq<Arg>, pad: char, width: int, alt: bool): string {
    if c == 'c' then [CharArg(args)]
    else if c == 'd' then Justified(IntText(IntArg(args), 10), width, pad)
    else if c == 'u' then Unsigned(UintArg(args), 10, alt, width, pad)
    else if c == 'x' then Unsigned(UintArg(args), 16, alt, width, pad)
    else if c == 'p' then Unsigned(UintArg(args), 16, true, width, pad)
    else if c == 's' then Justified(StrArg(args), width, pad)
    else [c]
  }

  /** The conversion after its percent sign: flags, width, modifiers, then the letter. */
  function Spec(f: string, args: seq<Arg>, pad: char, width: int, alt: bool): (r: Done)
    ensures |r.fmt| <= |f|
    decreases |f|
  {
    if f == "" then Done("", "", args, true)
    else if f[0] == '#' then Spec(f[1..], args, pad, width, true)
    else if f[0] == '0' then Spec(f[1..][NumLength(f[1..])..], args, '0', Atol(f[1..]), alt)
    else if f[0] == '-' || IsDigit(f[0]) then Spec(f[NumLength(f)..], args, pad, Atol(f), alt)
    else if f[0] == 'l' || f[0] == 't' || f[0] == 'z' then Spec(f[1..], args, pad, width, alt)
    else
      Done(Letter(f[0], args, pad, width, alt), f[1..], if Takes(f[0]) then Tail(args) else args,
           f[0] == 'd' ==> -IntArg(args) < I64)
  }

  /** The whole rendering, without a bound. */
  function Render(f: string, args: seq<Arg>): string
    decreases |f|
  {
    if f == "" then ""
    else if f[0] != '%' then [f[0]] + Render(f[1..], args)
    else
      var d := Spec(f[1..], args, ' ', 0, false);
      d.out + Render(d.fmt, d.args)
  }

  /** No conversion is given the least 64-bit integer to print in decimal. */
  predicate Defined(f: string, args: seq<Arg>)
    decreases |f|
  {
    if f == "" then true
    else if f[0] != '%' then Defined(f[1..], args)
    else
      var d := Spec(f[1..], args, ' ', 0, false);
      d.ok && Defined(d.fmt, d.args)
  }

  // ---------------------------------------------------------------- what formats mean

  /** Text without a percent sign stands for itself. */
  lemma {:induction false} PlainText(f: string, g: string, args: seq<Arg>)
    requires forall i :: 0 <= i < |f| ==> f[i] != '%'
    ensures Render(f + g, args) == f + Render(g, args)
    decreases |f|
  {
    if f == "" {
      assert f + g == g;
    } else {
      assert (f + g)[1..] == f[1..] + g;
      PlainText(f[1..], g, args);
      Rejoin([f[0]], f[1..], Render(g, args));
      assert [f[0]] + f[1..] == f;
    }
  }

  /** Reading digits stops at the first other character. */
  lemma {:induction false} ReadStops(acc: int, s: string, g: string)
    requires forall i :: 0 <= i < |s| ==> IsDigit(s[i])
    requires g != "" ==> !IsDigit(g[0])
    ensures Read(acc, s + g) == Read(acc, s) && DigitRun(s + g) == |s|
    decreases |s|
  {
    if s == "" {
      assert s + g == g;
    } else {
      assert (s + g)[1..] == s[1..] + g;
      ReadStops(acc * 10 + Value(s[0]), s[1..], g);
    }
  }

  lemma {:induction false} NoLeadingZero(n: nat)
    requires n > 0
    ensures Digits(n, 10) != "" && '1' <= Digits(n, 10)[0] <= '9'
  {
    if n >= 10 {
      NoLeadingZero(n / 10);
    } else {
      DigitsStep(n, 10);
      assert Digits(n, 10) == [Digit(n)];
    }
  }

  /** A width written in decimal is read as that width, sign and all, and exactly its characters are taken. */
  lemma WidthRead(w: int, g: string)
    requires w != 0 && (g != "" ==> !IsDigit(g[0]))
    ensures Atol(IntText(w, 10) + g) == w && NumLength(IntText(w, 10) + g) == |IntText(w, 10)|
  {
    hide Digits, Digit, Read, DigitRun;
    var m := if w < 0 then -w else w;
    var s := Digits(m, 10);
    var f := IntText(w, 10) + g;
    ReadDigits(m);
    NoLeadingZero(m);
    ReadStops(0, s, g);
    if w < 0 {
      assert f[1..] == s + g;
    } else {
      assert f == s + g;
    }
  }

  /**
  A percent sign, a width and a letter print the value of the letter padded to that width; of %s this
  is the string at the side the sign tells, in a field of at least that width (`JustifiedLength`).
  */
  lemma WidthPads(w: int, c: char, g: string, args: seq<Arg>)
    requires w != 0 && Takes(c)
    ensures Render("%" + IntText(w, 10) + [c] + g, args) ==
            Letter(c, args, ' ', w, false) + Render(g, Tail(args))
  {
    hide Letter, Atol, NumLength, IntText;
    var t := IntText(w, 10);
    var f := t + ([c] + g);
    WidthRead(w, [c] + g);
    WidthStarts(w, [c] + g);
    assert ("%" + t + [c] + g)[1..] == f;
    assert f[|t|..] == [c] + g && ([c] + g)[1..] == g;
    assert Spec(f, args, ' ', 0, false) == Spec([c] + g, args, ' ', w, false);
  }

  lemma WidthStarts(w: int, g: string)
    requires w != 0
    ensures var f := IntText(w, 10) + g;
            f != "" && (f[0] == '-' || '1' <= f[0] <= '9')
  {
    NoLeadingZero(if w < 0 then -w else w);
  }

  // ---------------------------------------------------------------- what the letters print

  /** What a character stands for as a digit, 16 if it is none. */
  function DigitOf(c: char): nat {
    if '0' <= c <= '9' then (c - '0') as nat else if 'a' <= c <= 'f' then (c - 'a') as nat + 10 else 16
  }

  /** The number a text spells in a base. */
  function Number(s: string, base: nat): nat {
    if s == "" then 0 else Number(s[..|s| - 1], base) * base + DigitOf(s[|s| - 1])
  }

  predicate InBase(s: string, base: nat) {
    forall i :: 0 <= i < |s| ==> DigitOf(s[i]) < base
  }

  lemma DigitSpells(d: nat)
    requires d < 16
    ensures DigitOf(Digit(d)) == d
  {
  }

  lemma NumberLast(s: string, c: char, base: nat)
    ensures Number(s + [c], base) == Number(s, base) * base + DigitOf(c)
  {
    assert (s + [c])[..|s|] == s;
  }

  lemma Parts(n: nat, base: nat)
    requires base >= 2
    ensures High(n, base) * base + Low(n, base) == n
  {
  }

  /** The digits are digits of the base, without a zero in front, and spell the number. */
  lemma {:induction false} DigitsSpell(n: nat, base: nat)
    requires 2 <= base <= 16
    ensures Number(Digits(n, base), base) == n && InBase(Digits(n, base), base)
    ensures n > 0 ==> Digits(n, base) != "" && DigitOf(Digits(n, base)[0]) != 0
  {
    hide High, Low, Digit, DigitOf, Number;
    DigitsStep(n, base);
    if n == 0 {
      NothingSpelt(base);
    } else {
      var q, r := High(n, base), Low(n, base);
      DigitsSpell(q, base);
      DigitSpells(r);
      NumberLast(Digits(q, base), Digit(r), base);
      Parts(n, base);
    }
  }

  lemma NothingSpelt(base: nat)
    ensures Number("", base) == 0
  {
  }

  lemma {:induction false} ZerosInFront(k: nat, s: string, base: nat)
    ensures Number(Times(k, '0') + s, base) == Number(s, base)
    decreases |s|, k
  {
    if s != "" {
      var n := |s| - 1;
      assert (Times(k, '0') + s)[..k + n] == Times(k, '0') + s[..n];
      ZerosInFront(k, s[..n], base);
    } else if k > 0 {
      assert (Times(k, '0') + s)[..k - 1] == Times(k - 1, '0') + s;
      ZerosInFront(k - 1, s, base);
    }
  }

  /** Text is an optional 0x and digits that spell u in the base. */
  predicate Spells(text: string, u: nat, base: nat, prefix: bool) {
    if prefix then |text| > 2 && text[..2] == "0x" && Number(text[2..], base) == u && InBase(text[2..], base)
    else text != "" && Number(text, base) == u && InBase(text, base)
  }

  /** Without a width d, u, x and p spell their argument: in base 10, 10, 16 and 16, the last two with 0x on demand. */
  lemma LettersSpell(args: seq<Arg>, pad: char, alt: bool)
    ensures Atol(Letter('d', args, pad, 0, alt)) == IntArg(args)
    ensures Spells(Letter('u', args, pad, 0, alt), UintArg(args), 10, false)
    ensures Spells(Letter('x', args, pad, 0, alt), UintArg(args), 16, alt && UintArg(args) != 0)
    ensures Spells(Letter('p', args, pad, 0, alt), UintArg(args), 16, UintArg(args) != 0)
  {
    hide Digits, Number, Digit, DigitOf, Atol;
    var u := UintArg(args);
    AtolRoundTrip(IntArg(args));
    BareText(IntText(IntArg(args), 10), pad);
    DigitsSpell(u, 10);
    DigitsSpell(u, 16);
    BareText(Digits(u, 10), pad);
    BareText(Digits(u, 16), pad);
    BareText("0x" + Digits(u, 16), pad);
    BareText("0", pad);
    ZeroSpelt(10);
    ZeroSpelt(16);
    assert ("0x" + Digits(u, 16))[2..] == Digits(u, 16);
  }

  lemma ZeroSpelt(base: nat)
    requires base >= 2
    ensures Spells("0", 0, base, false)
  {
    NumberLast("", '0', base);
    assert "" + ['0'] == "0";
  }

  lemma BareText(s: string, pad: char)
    ensures Justified(s, 0, pad) == s
  {
  }

  /** Zeros between the prefix and the digits fill the width, prefix included, and leave the number alone. */
  lemma ZeroPaddedHex(u: nat, w: nat)
    requires u > 0 && w > 0
    ensures var t := Unsigned(u, 16, true, w, '0');
            && |t| == Max(w, 2 + |Digits(u, 16)|)
            && t[..2] == "0x" && Number(t[2..], 16) == u
  {
    hide Digits, Number;
    var s := Digits(u, 16);
    DigitsSpell(u, 16);
    var t := Unsigned(u, 16, true, w, '0');
    var k := if w > 2 then w - 2 else 0;
    JustifiedLength(s, k, '0');
    assert t[2..] == Justified(s, k, '0');
    if k > |s| {
      ZerosInFront(k - |s|, s, 16);
    } else {
      assert Justified(s, k, '0') == s;
    }
  }

  // ---------------------------------------------------------------- writing it

  function Reversed(s: string): (r: string)
    ensures |r| == |s|
  {
    seq(|s|, i requires 0 <= i < |s| => s[|s| - 1 - i])
  }

  /** The swap loop of print_int and print_unsigned on the first len characters. */
  method ReverseInPlace(b: array<char>, len: nat)
    requires len <= b.Length
    modifies b
    ensures b[..len] == Reversed(old(b[..len]))
  {
    var i := 0;
    while i < len / 2
      invariant i <= len / 2
      invariant forall j :: 0 <= j < i || len - i <= j < len ==> b[j] == old(b[len - 1 - j])
      invariant forall j :: i <= j < len - i ==> b[j] == old(b[j])
    {
      var tmp := b[i];
      b[i] := b[len - 1 - i];
      b[len - 1 - i] := tmp;
      i := i + 1;
    }
    assert b[..len] == Reversed(old(b[..len]));
  }

  /** The digit loop: the digits of n, lowest first, from the front of the buffer on. */
  method PutDigits(b: array<char>, n: nat, base: nat) returns (p: nat)
    requires 2 <= base <= 16 && |Digits(n, base)| <= b.Length
    modifies b
    ensures p == |Digits(n, base)| && Reversed(b[..p]) == Digits(n, base)
  {
    hide Digits, Digit, Reversed, High, Low;
    p := 0;
    var m: nat := n;
    NothingReversed(b[..0]);
    while m > 0
      invariant p + |Digits(m, base)| == |Digits(n, base)|
      invariant Digits(n, base) == Digits(m, base) + Reversed(b[..p])
    {
      var c := Digit(Low(m, base));
      MoveDigit(n, m, base, b[..p]);
      b[p] := c;
      assert b[..p + 1] == b[..p] + [c];
      m := High(m, base);
      p := p + 1;
    }
    DigitsStep(m, base);
  }

  /** The lowest digit goes from the digits still to come to those already stored backwards. */
  lemma MoveDigit(n: nat, m: nat, base: nat, s: string)
    requires 2 <= base <= 16 && m > 0 && Digits(n, base) == Digits(m, base) + Reversed(s)
    ensures |Digits(m, base)| == |Digits(High(m, base), base)| + 1
    ensures Digits(n, base) == Digits(High(m, base), base) + Reversed(s + [Digit(Low(m, base))])
  {
    DigitsStep(m, base);
    ReversedStep(s, Digit(Low(m, base)));
    hide Digits, Digit, Reversed, High, Low;
    Rejoin(Digits(High(m, base), base), [Digit(Low(m, base))], Reversed(s));
  }

  lemma DigitsStep(m: nat, base: nat)
    requires 2 <= base <= 16
    ensures Digits(m, base) == if m == 0 then "" else Digits(High(m, base), base) + [Digit(Low(m, base))]
  {
  }

  lemma ReversedStep(s: string, c: char)
    ensures Reversed(s + [c]) == [c] + Reversed(s)
  {
  }

  lemma NothingReversed(s: string)
    ensures s == "" ==> Reversed(s) == ""
  {
  }

  /** What the code of print_str adds, in its order. */
  lemma JustifiedInOrder(s: string, width: int, pad: char)
    ensures width > 0 ==> Justified(s, width, pad) == Times(width - |s|, pad) + s
    ensures width > 0 ==> Times(-width, ' ') == ""
    ensures width < 0 ==> Justified(s, width, pad) == s + Times(-(width + |s|), ' ')
    ensures width == 0 ==> Justified(s, width, pad) == s
  {
  }

  class Stream {
    const buf: array<char>
    const size: nat
    var pos: nat
    var remain: nat
    var added: nat
    ghost var out: string
    ghost const before: seq<char>

    /** The buffer holds what fits of the output so far, and nothing behind that has changed. */
    ghost predicate Valid()
      reads this, buf
    {
      && 1 <= size <= buf.Length == |before|
      && pos + remain == size - 1 && added == |out|
      && pos == (if |out| < size - 1 then |out| else size - 1)
      && buf[..] == out[..pos] + before[pos..]
    }

    constructor (b: array<char>, n: nat)
      requires 1 <= n <= b.Length
      ensures Valid() && buf == b && size == n && out == "" && before == b[..]
    {
      buf, size, pos, remain, added, out, before := b, n, 0, n - 1, 0, "", b[..];
    }

    /** addchar */
    method AddChar(c: char)
      requires Valid()
      modifies this, buf
      ensures Valid() && out == old(out) + [c]
    {
      if remain > 0 {
        buf[pos] := c;
        pos := pos + 1;
        remain := remain - 1;
      }
      added := added + 1;
      out := out + [c];
      assert buf[..] == out[..pos] + before[pos..];
    }

    /** The NUL behind what fits. */
    method Terminate()
      requires Valid()
      modifies buf
      ensures buf[..] == out[..pos] + ['\0'] + before[pos + 1..]
    {
      buf[pos] := '\0';
    }

    method AddTimes(k: int, c: char)
      requires Valid()
      modifies this, buf
      ensures Valid() && out == old(out) + Times(k, c)
    {
      var n := k;
      assert out == old(out) + Times(k, c)[..0];
      while n > 0
        invariant n == k || 0 <= n < k
        invariant Valid() && out == old(out) + Times(k - n, c)
      {
        AddChar(c);
        assert Times(k - (n - 1), c) == Times(k - n, c) + [c];
        n := n - 1;
      }
      assert k <= 0 ==> Times(k, c) == Times(0, c);
    }

    method AddText(s: string)
      requires Valid()
      modifies this, buf
      ensures Valid() && out == old(out) + s
    {
      var i := 0;
      while i < |s|
        invariant i <= |s| && Valid() && out == old(out) + s[..i]
      {
        AddChar(s[i]);
        assert s[..i + 1] == s[..i] + [s[i]];
        i := i + 1;
      }
      assert s[..i] == s;
    }

    /** print_str */
    method PrintStr(s: string, width: int, pad: char)
      requires Valid()
      modifies this, buf
      ensures Valid() && out == old(out) + Justified(s, width, pad)
    {
      hide Times, Justified;
      JustifiedInOrder(s, width, pad);
      var npad := width;
      if npad > 0 {
        npad := npad - |s|;
        AddTimes(npad, pad);
        npad := if npad > 0 then 0 else npad;
      }
      AddText(s);
      if npad < 0 {
        npad := npad + |s|;
        AddTimes(-npad, ' ');
      }
    }

    /** print_int; it is not defined for the least integer, whose negation does not exist. */
    method PrintInt(n: int, width: int, pad: char) returns (ok: bool)
      requires Valid() && n < I64 && -n <= I64
      modifies this, buf
      ensures Valid() && ok == (-n < I64) && (ok ==> out == old(out) + Justified(IntText(n, 10), width, pad))
    {
      var s := SpellInt(n);
      if s.None? {
        return false;
      }
      PrintStr(s.value, width, pad);
      return true;
    }

    /** print_unsigned */
    method PrintUnsigned(n: nat, base: nat, alt: bool, width: int, pad: char)
      requires Valid() && n < U64 && (base == 10 || base == 16)
      modifies this, buf
      ensures Valid() && out == old(out) + Unsigned(n, base, alt, width, pad)
    {
      hide Justified, Digits;
      var prefix := n != 0 && alt && base == 16;
      var w := width;
      if prefix && pad == '0' {
        AddChar('0');
        AddChar('x');
        w := if w > 2 then w - 2 else if w > 0 then 0 else w;
      }
      var s := SpellUnsigned(n, base, prefix && pad != '0');
      PrintStr(s, w, pad);
    }
  }

  /** Negation and remainder of 64-bit numbers as the machine has them. */
  function Negated(n: int): int {
    if -n == I64 then n else -n
  }

  function Remainder(a: int, b: nat): int
    requires b > 0
  {
    if a < 0 then -(-a % b) else a % b
  }

  /** print_int looks up its first digit inside the digit table exactly for numbers above the least one. */
  lemma SpellableIff(n: int)
    requires n < I64 && -n <= I64
    ensures 0 <= Remainder(if n < 0 then Negated(n) else n, 10) < 16 <==> -n < I64
  {
  }

  /**
  The local buffer of print_int: digits and sign backwards, then turned round.  Where the negation
  stays negative the digits are looked up outside their table, and there is no text.
  */
  method SpellInt(n: int) returns (s: Option<string>)
    requires n < I64 && -n <= I64
    ensures s == if -n < I64 then Some(IntText(n, 10)) else None
  {
    var b := new char[26];
    var m := if n < 0 then Negated(n) else n;
    SpellableIff(n);
    hide Remainder;
    if !(0 <= Remainder(m, 10) < 16) {
      return None;
    }
    assert m == if n < 0 then -n else n;
    DigitsFit(m);
    var p := PutDigits(b, m, 10);
    ghost var done := b[..p];
    DigitsStep(m, 10);
    if n < 0 {
      b[p] := '-';
      assert b[..p + 1] == done + ['-'];
      ReversedStep(done, '-');
      p := p + 1;
    }
    if p == 0 {
      b[0] := '0';
      p := 1;
      ReversedStep("", '0');
      assert b[..1] == "" + ['0'];
    }
    ReverseInPlace(b, p);
    assert b[..p] == IntText(n, 10);
    s := Some(b[..p]);
  }

  /** The local buffer of print_unsigned. */
  method SpellUnsigned(n: nat, base: nat, prefix: bool) returns (s: string)
    requires n < U64 && (base == 10 || base == 16) && (prefix ==> base == 16 && n != 0)
    ensures s == if n == 0 then "0" else if prefix then "0x" + Digits(n, base) else Digits(n, base)
  {
    var b := new char[27];
    DigitsFit(n);
    var p := PutDigits(b, n, base);
    ghost var done := b[..p];
    DigitsStep(n, base);
    hide Digits;
    if p == 0 {
      b[0] := '0';
      p := 1;
      ReversedStep("", '0');
      assert b[..1] == "" + ['0'];
    } else if prefix {
      b[p] := 'x';
      b[p + 1] := '0';
      assert b[..p + 2] == (done + ['x']) + ['0'];
      ReversedStep(done, 'x');
      ReversedStep(done + ['x'], '0');
      p := p + 2;
    }
    ReverseInPlace(b, p);
    s := b[..p];
  }

  /** Numbers have 64 bits. */
  predicate ArgOk(a: Arg) {
    (a.Int? ==> a.n < I64 && -a.n <= I64) && (a.Uint? ==> a.u < U64)
  }

  predicate ArgsOk(args: seq<Arg>) {
    forall i :: 0 <= i < |args| ==> ArgOk(args[i])
  }

  /** One conversion, from behind its percent sign on. */
  method Convert(st: Stream, fmt: string, args: seq<Arg>) returns (f: string, rest: seq<Arg>, ok: bool)
    requires st.Valid() && ArgsOk(args)
    modifies st, st.buf
    ensures st.Valid()
    ensures var d := Spec(fmt, args, ' ', 0, false);
            ok == d.ok && f == d.fmt && rest == d.args && (ok ==> st.out == old(st.out) + d.out)
  {
    f, rest, ok := fmt, args, true;
    var pad, width, alt := ' ', 0, false;
    while f != ""
      invariant st.Valid() && st.out == old(st.out) && rest == args && ok
      invariant Spec(f, args, pad, width, alt) == Spec(fmt, args, ' ', 0, false)
      decreases |f|
    {
      hide Letter, Atol, NumLength;
      var c := f[0];
      if c == '#' {
        alt := true;
        f := f[1..];
      } else if c == '0' {
        pad, width := '0', Atol(f[1..]);
        f := f[1..][NumLength(f[1..])..];
      } else if c == '-' || IsDigit(c) {
        NumTakes(f);
        width := Atol(f);
        f := f[NumLength(f)..];
      } else if c == 'l' || c == 't' || c == 'z' {
        f := f[1..];
      } else {
        ok := PrintLetter(st, c, rest, pad, width, alt);
        rest := if Takes(c) then Tail(rest) else rest;
        f := f[1..];
        return;
      }
    }
    assert st.out == st.out + "";
  }

  lemma NumTakes(f: string)
    requires f != "" && (f[0] == '-' || IsDigit(f[0]))
    ensures NumLength(f) > 0
  {
  }

  /** The conversion letter itself. */
  method PrintLetter(st: Stream, c: char, args: seq<Arg>, pad: char, width: int, alt: bool) returns (ok: bool)
    requires st.Valid() && ArgsOk(args)
    modifies st, st.buf
    ensures st.Valid() && ok == (c == 'd' ==> -IntArg(args) < I64)
    ensures ok ==> st.out == old(st.out) + Letter(c, args, pad, width, alt)
  {
    hide Justified, Unsigned, IntText;
    ok := true;
    if c == 'c' {
      st.AddChar(CharArg(args));
    } else if c == 'd' {
      ok := st.PrintInt(IntArg(args), width, pad);
    } else if c == 'u' {
      st.PrintUnsigned(UintArg(args), 10, alt, width, pad);
    } else if c == 'x' {
      st.PrintUnsigned(UintArg(args), 16, alt, width, pad);
    } else if c == 'p' {
      st.PrintUnsigned(UintArg(args), 16, true, width, pad);
    } else if c == 's' {
      st.PrintStr(StrArg(args), width, pad);
    } else {
      st.AddChar(c);
    }
  }

  /**
  my_vsnprintf: returns the length of the whole rendering; the buffer holds the part of it that
  fits in size - 1 characters and then a NUL, and nothing behind that is touched.  It is defined for
  exactly the formats and arguments that print no least integer in decimal.
  */
  method Format(buf: array<char>, size: nat, fmt: string, args: seq<Arg>) returns (n: nat, ok: bool)
    requires 1 <= size <= buf.Length && ArgsOk(args)
    modifies buf
    ensures ok == Defined(fmt, args)
    ensures ok ==> n == |Render(fmt, args)|
    ensures ok ==> var k := if n < size - 1 then n else size - 1;
                   buf[..] == Render(fmt, args)[..k] + ['\0'] + old(buf[k + 1..])
  {
    hide Render, Defined;
    var st := new Stream(buf, size);
    ok := RenderTo(st, fmt, args);
    n := st.added;
    st.Terminate();
  }

  /** The loop over the format. */
  method RenderTo(st: Stream, fmt: string, args: seq<Arg>) returns (ok: bool)
    requires st.Valid() && st.out == "" && ArgsOk(args)
    modifies st, st.buf
    ensures st.Valid() && ok == Defined(fmt, args) && (ok ==> st.out == Render(fmt, args))
  {
    hide Render, Defined, Spec, ArgsOk;
    var f, rest := fmt, args;
    ok := true;
    while f != ""
      invariant st.Valid() && st.out + Render(f, rest) == Render(fmt, args) && ArgsOk(rest)
      invariant Defined(fmt, args) == Defined(f, rest)
      decreases |f|
    {
      RenderStep(st.out, f, rest);
      if f[0] != '%' {
        st.AddChar(f[0]);
        f := f[1..];
      } else {
        ArgsStay(f[1..], rest, ' ', 0, false);
        f, rest, ok := Convert(st, f[1..], rest);
        if !ok {
          return;
        }
      }
    }
    RenderStep(st.out, f, rest);
  }

  lemma RenderStep(o: string, f: string, args: seq<Arg>)
    ensures f == "" ==> o + Render(f, args) == o && Defined(f, args)
    ensures f != "" && f[0] != '%' ==>
              o + Render(f, args) == (o + [f[0]]) + Render(f[1..], args) && Defined(f, args) == Defined(f[1..], args)
    ensures f != "" && f[0] == '%' ==>
              var d := Spec(f[1..], args, ' ', 0, false);
              && |d.fmt| < |f| && o + Render(f, args) == (o + d.out) + Render(d.fmt, d.args)
              && Defined(f, args) == (d.ok && Defined(d.fmt, d.args))
  {
    hide Spec;
    if f != "" && f[0] == '%' {
      var d := Spec(f[1..], args, ' ', 0, false);
      Rejoin(o, d.out, Render(d.fmt, d.args));
    }
  }

  lemma Rejoin(a: string, b: string, c: string)
    ensures (a + b) + c == a + (b + c)
  {
  }

  /** The arguments left over are some of the arguments. */
  lemma {:induction false} ArgsStay(f: string, args: seq<Arg>, pad: char, width: int, alt: bool)
    requires ArgsOk(args)
    ensures ArgsOk(Spec(f, args, pad, width, alt).args)
    decreases |f|
  {
    hide Letter, Atol;
    if f == "" {
    } else if f[0] == '#' {
      ArgsStay(f[1..], args, pad, width, true);
    } else if f[0] == '0' {
      ArgsStay(f[1..][NumLength(f[1..])..], args, '0', Atol(f[1..]), alt);
    } else if f[0] == '-' || IsDigit(f[0]) {
      ArgsStay(f[NumLength(f)..], args, pad, Atol(f), alt);
    } else if f[0] == 'l' || f[0] == 't' || f[0] == 'z' {
      ArgsStay(f[1..], args, pad, width, alt);
    }
  }
}
