/** The base-85 encoder and decoder (section 7.4.3 of ISO 32000-1). */
module Ascii85 {
  import opened Words

  predicate AreBytes(b: seq<int>) {
    forall i | 0 <= i < |b| :: 0 <= b[i] < 256
  }

  function Pow85(k: nat): (p: nat)
    requires k < 5
    ensures p > 0
  {
    [52200625, 614125, 7225, 85, 1][k]
  }

  function Pow256(k: nat): (p: nat)
    requires k < 4
    ensures p > 0
  {
    [0x100_0000, 0x1_0000, 0x100, 1][k]
  }

  // ---- Encoding, as a function ----

  /** Up to four bytes as the high bytes of a 32-bit number. */
  function Tuple(b: seq<int>): int
    requires |b| <= 4
  {
    if b == [] then 0 else Tuple(b[..|b| - 1]) + b[|b| - 1] * Pow256(|b| - 1)
  }

  /** The k-th base-85 digit of a 32-bit number, from the left. */
  function Digit(t: int, k: nat): (d: int)
    requires 0 <= t < WORD && k < 5
    ensures 0 <= d < 85
  {
    t / Pow85(k) % 85
  }

  function DigitChar(d: int): char
    requires 0 <= d < 85
  {
    (d + 33) as char
  }

  /** The first n digits. */
  function Chars(t: int, n: nat): (s: string)
    requires 0 <= t < WORD && n <= 5
    ensures |s| == n
  {
    seq(n, k requires 0 <= k < n => DigitChar(Digit(t, k)))
  }

  lemma TupleRange(b: seq<int>)
    requires |b| <= 4 && AreBytes(b)
    ensures 0 <= Tuple(b) < WORD
    ensures |b| > 0 ==> Tuple(b) <= WORD - Pow256(|b| - 1)
  {
    if b != [] {
      TupleRange(b[..|b| - 1]);
    }
  }

  function Group(b: seq<int>): string
    requires 0 < |b| <= 4 && AreBytes(b)
  {
    TupleRange(b);
    if |b| == 4 && Tuple(b) == 0 then "z" else Chars(Tuple(b), |b| + 1)
  }

  /** The encoding without line breaks. */
  function Raw(b: seq<int>): string
    requires AreBytes(b)
  {
    if b == [] then "" else if |b| <= 4 then Group(b) else Group(b[..4]) + Raw(b[4..])
  }

  /** A string broken into lines: `pos` characters stand on the current line. */
  function Lines(s: string, pos: nat, width: nat): (string, nat) {
    if s == "" then ("", pos) else
      var (out, p) := Lines(s[..|s| - 1], pos, width);
      (out + Line(s[|s| - 1], p, width), NextPos(p, width))
  }

  /** A character, and a line break after the last one of a line. */
  function Line(c: char, pos: nat, width: nat): string {
    if pos >= width then [c, '\n'] else [c]
  }

  function NextPos(pos: nat, width: nat): nat {
    if pos >= width then 0 else pos + 1
  }

  function Ending(pos: nat, width: nat): string {
    (if pos + 2 > width then "\n" else "") + "~>\n"
  }

  function Encoded(b: seq<int>, width: nat): string
    requires AreBytes(b)
  {
    var (out, pos) := Lines(Raw(b), 0, width);
    out + Ending(pos, width)
  }

  lemma {:induction false} RawAppend(a: seq<int>, g: seq<int>)
    requires AreBytes(a) && AreBytes(g) && |a| % 4 == 0 && 0 < |g| <= 4
    ensures Raw(a + g) == Raw(a) + Group(g)
  {
    hide Group;
    if a == [] {
      assert a + g == g;
    } else {
      assert (a + g)[..4] == a[..4] && (a + g)[4..] == a[4..] + g;
      assert a[4..] == [] ==> Raw(a) == Group(a[..4]) by {
        assert |a| == 4 ==> a[..4] == a;
      }
      RawAppend(a[4..], g);
    }
  }

  lemma {:induction false} LinesAppend(a: string, b: string, pos: nat, width: nat)
    ensures var (o1, p1) := Lines(a, pos, width); var (o2, p2) := Lines(b, p1, width);
            Lines(a + b, pos, width) == (o1 + o2, p2)
  {
    if b == "" {
      assert a + b == a;
      assert Lines(a, pos, width).0 + "" == Lines(a, pos, width).0;
    } else {
      assert (a + b)[..|a + b| - 1] == a + b[..|b| - 1];
      LinesAppend(a, b[..|b| - 1], pos, width);
      var (o1, p1) := Lines(a, pos, width);
      var (o2, p2) := Lines(b[..|b| - 1], p1, width);
      var c := b[|b| - 1];
      assert (a + b)[|a + b| - 1] == c;
      assert o1 + o2 + Line(c, p2, width) == o1 + (o2 + Line(c, p2, width));
    }
  }

  lemma LinesOne(s: string, i: nat, pos: nat, width: nat)
    requires i < |s|
    ensures var (o, p) := Lines(s[..i], pos, width);
            Lines(s[..i + 1], pos, width) == (o + Line(s[i], p, width), NextPos(p, width))
  {
    assert s[..i + 1][..i] == s[..i];
  }

  /** One more group on top of whole groups. */
  lemma GroupDone(whole: seq<int>, part: seq<int>, out: string, pos: nat, width: nat)
    requires AreBytes(whole) && AreBytes(part) && |whole| % 4 == 0 && 0 < |part| <= 4
    requires Lines(Raw(whole), 0, width) == (out, pos)
    ensures var (o, p) := Lines(Group(part), pos, width); Lines(Raw(whole + part), 0, width) == (out + o, p)
  {
    RawAppend(whole, part);
    LinesAppend(Raw(whole), Group(part), 0, width);
  }

  // ---- The encoder ----

  /** Writes one character, and a line break after every `width + 1` of them. */
  method Put(c: char, out: string, pos: nat, width: nat) returns (out2: string, pos2: nat)
    ensures out2 == out + Line(c, pos, width) && pos2 == NextPos(pos, width)
  {
    out2, pos2 := out + [c], pos + 1;
    if pos >= width {
      pos2 := 0;
      out2 := out2 + "\n";
    }
  }

  /** The digits of a 32-bit number, least significant first. */
  method Digits(tuple: int) returns (buf: array<int>)
    requires 0 <= tuple < WORD
    ensures fresh(buf) && buf.Length == 5 && forall k | 0 <= k < 5 :: buf[k] == Digit(tuple, 4 - k)
  {
    hide Digit;
    buf := new int[5];
    DigitsByDivision(tuple);
    var t := tuple;
    buf[0], t := t % 85, t / 85;
    buf[1], t := t % 85, t / 85;
    buf[2], t := t % 85, t / 85;
    buf[3], t := t % 85, t / 85;
    buf[4], t := t % 85, t / 85;
  }

  lemma Div7225(t: int)
    ensures t / 7225 == t / 85 / 85
  {
  }

  lemma Div614125(t: int)
    ensures t / 614125 == t / 7225 / 85
  {
  }

  lemma Div52200625(t: int)
    ensures t / 52200625 == t / 614125 / 85
  {
  }

  /** Dividing by 85 again and again yields the digits from the right. */
  lemma DigitsByDivision(t: int)
    requires 0 <= t < WORD
    ensures Digit(t, 4) == t % 85 && Digit(t, 3) == t / 85 % 85 && Digit(t, 2) == t / 85 / 85 % 85
    ensures Digit(t, 1) == t / 85 / 85 / 85 % 85 && Digit(t, 0) == t / 85 / 85 / 85 / 85 % 85
  {
    Div7225(t);
    Div614125(t);
    Div52200625(t);
  }

  /** Writes the first `count + 1` digits. */
  method EncodeChar(tuple: int, count: nat, out: string, pos: nat, width: nat) returns (out2: string, pos2: nat)
    requires 0 <= tuple < WORD && 1 <= count <= 4
    ensures var (o, p) := Lines(Chars(tuple, count + 1), pos, width); out2 == out + o && pos2 == p
  {
    hide Digit, Lines;
    var buf := Digits(tuple);
    out2, pos2 := out, pos;
    ghost var s := Chars(tuple, count + 1);
    LinesNone(s, pos, width);
    var i := 0;
    while i <= count
      invariant 0 <= i <= count + 1 && forall k | 0 <= k < 5 :: buf[k] == Digit(tuple, 4 - k)
      invariant var (o, p) := Lines(s[..i], pos, width); out2 == out + o && pos2 == p
    {
      LinesOne(s, i, pos, width);
      out2, pos2 := Put((buf[4 - i] + 33) as char, out2, pos2, width);
      i := i + 1;
    }
    assert s[..count + 1] == s;
  }

  lemma LinesNone(s: string, pos: nat, width: nat)
    ensures Lines(s[..0], pos, width) == ("", pos)
  {
  }

  method EncodeGroup(tuple: int, count: nat, out: string, pos: nat, width: nat, ghost part: seq<int>)
    returns (out2: string, pos2: nat)
    requires 1 <= count == |part| <= 4 && AreBytes(part) && tuple == Tuple(part)
    ensures var (o, p) := Lines(Group(part), pos, width); out2 == out + o && pos2 == p
  {
    TupleRange(part);
    if count == 4 && tuple == 0 {
      LinesNone("z", pos, width);
      LinesOne("z", 0, pos, width);
      assert "z"[..1] == "z";
      out2, pos2 := Put('z', out, pos, width);
    } else {
      out2, pos2 := EncodeChar(tuple, count, out, pos, width);
    }
  }

  method Encode(input: seq<int>, width: nat) returns (out: string)
    requires AreBytes(input)
    ensures out == Encoded(input, width)
  {
    hide Lines, Raw, Group, Pow256, Tuple;
    var count, tuple, pos := 0, 0, 0;
    out := "";
    ghost var whole: seq<int> := [];
    EncodeNone(width);
    TupleStep([]);
    for k := 0 to |input|
      invariant 0 <= count <= 3 && |whole| % 4 == 0 && |whole| + count == k
      invariant whole == input[..k - count] && tuple == Tuple(input[k - count..k])
      invariant Lines(Raw(whole), 0, width) == (out, pos)
    {
      ghost var part := input[k - count..k + 1];
      assert part[..count] == input[k - count..k];
      TupleStep(part);
      tuple := tuple + input[k] * Pow256(count);
      count := count + 1;
      if count == 4 {
        GroupDone(whole, part, out, pos, width);
        out, pos := EncodeGroup(tuple, count, out, pos, width, part);
        whole := whole + part;
        tuple, count := 0, 0;
        TupleStep([]);
        assert input[k + 1..k + 1] == [];
      }
    }
    if count > 0 {
      ghost var part := input[|input| - count..|input|];
      GroupDone(whole, part, out, pos, width);
      assert whole + part == input;
      out, pos := EncodeGroup(tuple, count, out, pos, width, part);
    } else {
      assert whole == input;
    }
    if pos + 2 > width {
      out := out + "\n";
    }
    out := out + "~" + ">" + "\n";
  }

  /** One byte more. */
  lemma TupleStep(b: seq<int>)
    requires |b| <= 4
    ensures Tuple(b) == if b == [] then 0 else Tuple(b[..|b| - 1]) + b[|b| - 1] * Pow256(|b| - 1)
  {
  }

  lemma EncodeNone(width: nat)
    ensures Lines(Raw([]), 0, width) == ("", 0)
  {
  }

  // ---- Decoding, as a function ----

  /** The decoder between two characters. */
  datatype Dec = Dec(count: nat, tuple: int, out: seq<int>)

  /** Accepted, rejected, or reading the last character of the input again and again. */
  datatype Outcome = Accepted(out: seq<int>) | Rejected | Endless

  predicate DecOk(d: Dec) {
    d.count < 5 && 0 <= d.tuple < WORD
  }

  /** The high bytes of a 32-bit number. */
  function HighBytes(t: int, n: nat): seq<int>
    requires n <= 4
  {
    seq(n, k requires 0 <= k < n => t / Pow256(k) % 256)
  }

  predicate IsDigit(c: char) {
    '!' <= c <= 'u'
  }

  predicate Skipped(c: char) {
    c in {'\r', '\n', '\t', '\0', '\U{000C}', '\U{0008}', '\U{007F}'}
  }

  function AddDigit(d: Dec, c: char): (r: Dec)
    requires DecOk(d) && IsDigit(c)
    ensures DecOk(r)
  {
    var tuple := (d.tuple + (c as int - '!' as int) * Pow85(d.count)) % WORD;
    if d.count == 4 then Dec(0, 0, d.out + HighBytes(tuple, 4)) else Dec(d.count + 1, tuple, d.out)
  }

  /** What is left in the middle of a group at the end of the data. */
  function Flush(d: Dec): seq<int>
    requires DecOk(d)
  {
    if d.count == 0 then d.out else d.out + HighBytes((d.tuple + Pow85(d.count - 1)) % WORD, d.count - 1)
  }

  /** After a tilde: white space may stand before the closing bracket. */
  function Close(d: Dec, s: string): Outcome
    requires DecOk(d)
  {
    if s == "" then Rejected
    else if s[0] == '>' then Accepted(Flush(d))
    else if !Skipped(s[0]) then Rejected
    else if |s| == 1 then Endless
    else Close(d, s[1..])
  }

  function Decoded(d: Dec, s: string): Outcome
    requires DecOk(d)
    decreases |s|
  {
    if s == "" then Accepted(d.out)
    else if IsDigit(s[0]) then Decoded(AddDigit(d, s[0]), s[1..])
    else if s[0] == 'z' then if d.count != 0 then Rejected else Decoded(d.(out := d.out + [0, 0, 0, 0]), s[1..])
    else if s[0] == '~' then Close(d, s[1..])
    else Decoded(d, s[1..])
  }

  // ---- The decoder ----

  /** Writes the high bytes of a 32-bit number. */
  method Wput(tuple: int, bytes: nat, out: seq<int>) returns (out2: seq<int>)
    requires bytes <= 4
    ensures out2 == out + HighBytes(tuple, bytes)
  {
    out2 := out;
    for k := 0 to bytes
      invariant out2 == out + HighBytes(tuple, bytes)[..k]
    {
      out2 := out2 + [tuple / Pow256(k) % 256];
    }
  }

  /** The end of the data, after a tilde. */
  method DecodeEnd(input: string, start: nat, count: nat, tuple: int, out: seq<int>) returns (r: Outcome)
    requires start <= |input| && count < 5 && 0 <= tuple < WORD
    ensures r == Close(Dec(count, tuple, out), input[start..])
  {
    hide HighBytes;
    if start == |input| {
      return Rejected;
    }
    var c, p := input[start], start + 1;
    while Skipped(c)
      invariant start < p <= |input| && c == input[p - 1]
      invariant Close(Dec(count, tuple, out), input[p - 1..]) == Close(Dec(count, tuple, out), input[start..])
      decreases |input| - p
    {
      if p == |input| {
        return Endless;
      }
      c, p := input[p], p + 1;
    }
    if c == '>' {
      if count > 0 {
        var out2 := Wput((tuple + Pow85(count - 1)) % WORD, count - 1, out);
        return Accepted(out2);
      }
      return Accepted(out);
    }
    return Rejected;
  }

  method Decode(input: string) returns (r: Outcome)
    ensures r == Decoded(Dec(0, 0, []), input)
  {
    hide HighBytes, Close;
    var count, tuple, out: seq<int> := 0, 0, [];
    for p := 0 to |input|
      invariant 0 <= count < 5 && 0 <= tuple < WORD
      invariant Decoded(Dec(count, tuple, out), input[p..]) == Decoded(Dec(0, 0, []), input)
    {
      var c := input[p];
      assert input[p..][1..] == input[p + 1..];
      if '!' <= c <= 'u' {
        tuple, count := (tuple + (c as int - '!' as int) * Pow85(count)) % WORD, count + 1;
        if count == 5 {
          out := Wput(tuple, 4, out);
          count, tuple := 0, 0;
        }
      } else if c == 'z' {
        if count != 0 {
          return Rejected;
        }
        ghost var before := out;
        for i := 0 to 4
          invariant out == before + [0, 0, 0, 0][..i]
        {
          out := out + [0];
        }
        assert [0, 0, 0, 0][..4] == [0, 0, 0, 0];
      } else if c == '~' {
        r := DecodeEnd(input, p + 1, count, tuple, out);
        return;
      }
    }
    r := Accepted(out);
  }

  // ---- The round trip ----

  predicate Plain(s: string) {
    forall i | 0 <= i < |s| :: IsDigit(s[i]) || s[i] == 'z'
  }

  /** A line break in the data is not seen. */
  lemma {:induction false} BreakSkipped(d: Dec, a: string, rest: string)
    requires DecOk(d) && Plain(a)
    ensures Decoded(d, a + "\n" + rest) == Decoded(d, a + rest)
    decreases |a|
  {
    var s := a + "\n" + rest;
    if a == "" {
      assert s[1..] == rest && a + rest == rest;
    } else {
      assert s[1..] == a[1..] + "\n" + rest && (a + rest)[1..] == a[1..] + rest;
      if IsDigit(a[0]) {
        BreakSkipped(AddDigit(d, a[0]), a[1..], rest);
      } else if d.count == 0 {
        BreakSkipped(d.(out := d.out + [0, 0, 0, 0]), a[1..], rest);
      }
    }
  }

  /** Breaking the data into lines does not change what is decoded. */
  lemma {:induction false} BreaksSkipped(d: Dec, s: string, pos: nat, width: nat, rest: string)
    requires DecOk(d) && Plain(s)
    ensures Decoded(d, Lines(s, pos, width).0 + rest) == Decoded(d, s + rest)
    decreases |s|
  {
    if s == "" {
      assert Lines(s, pos, width).0 == s;
    } else {
      var n := |s| - 1;
      var (o, p) := Lines(s[..n], pos, width);
      var tail := Line(s[n], p, width);
      assert o + tail + rest == o + (tail + rest);
      BreaksSkipped(d, s[..n], pos, width, tail + rest);
      assert s == s[..n] + [s[n]];
      if p >= width {
        assert s[..n] + (tail + rest) == s + "\n" + rest;
        BreakSkipped(d, s, rest);
      } else {
        assert s[..n] + (tail + rest) == s + rest;
      }
    }
  }

  /** The sum of the first n digits with their weights. */
  function DigitSum(t: int, n: nat): int
    requires 0 <= t < WORD && n <= 5
  {
    if n == 0 then 0 else DigitSum(t, n - 1) + Digit(t, n - 1) * Pow85(n - 1)
  }

  /** The first digits stand for the number with the rest of its digits cleared. */
  lemma DigitSumIs(t: int)
    requires 0 <= t < WORD
    ensures DigitSum(t, 0) == 0 && DigitSum(t, 1) == t / 52200625 * 52200625 && DigitSum(t, 2) == t / 614125 * 614125
    ensures DigitSum(t, 3) == t / 7225 * 7225 && DigitSum(t, 4) == t / 85 * 85 && DigitSum(t, 5) == t
  {
    hide Digit;
    DigitsByDivision(t);
    Div7225(t);
    Div614125(t);
    Div52200625(t);
    By85(t);
    By85(t / 85);
    By85(t / 85 / 85);
    By85(t / 85 / 85 / 85);
    By85(t / 85 / 85 / 85 / 85);
  }

  lemma By85(x: int)
    ensures x == 85 * (x / 85) + x % 85 && (0 <= x < 85 ==> x % 85 == x)
  {
  }

  lemma DigitSumRange(t: int, n: nat)
    requires 0 <= t < WORD && n <= 5
    ensures 0 <= DigitSum(t, n) <= t
  {
    DigitSumIs(t);
  }

  lemma DecodeOne(d: Dec, c: char, rest: string)
    requires DecOk(d) && IsDigit(c)
    ensures Decoded(d, [c] + rest) == Decoded(AddDigit(d, c), rest)
  {
    assert ([c] + rest)[1..] == rest;
  }

  lemma AddOne(out: seq<int>, t: int, k: nat)
    requires 0 <= t < WORD && k < 5
    ensures DecOk(Dec(k, DigitSum(t, k), out)) && IsDigit(DigitChar(Digit(t, k)))
    ensures AddDigit(Dec(k, DigitSum(t, k), out), DigitChar(Digit(t, k)))
         == if k == 4 then Dec(0, 0, out + HighBytes(t, 4)) else Dec(k + 1, DigitSum(t, k + 1), out)
  {
    hide Digit, Pow85, HighBytes;
    DigitSumRange(t, k);
    DigitSumRange(t, k + 1);
    NoWrap(DigitSum(t, k + 1));
    if k == 4 {
      AllDigits(t);
    }
  }

  lemma NoWrap(x: int)
    requires 0 <= x < WORD
    ensures x % WORD == x
  {
  }

  lemma AllDigits(t: int)
    requires 0 <= t < WORD
    ensures DigitSum(t, 5) == t
  {
    DigitSumIs(t);
  }

  /** Decoding some digits of a number: fewer than five, from the middle of a group. */
  lemma {:induction false} DecodeChars(out: seq<int>, t: int, from: nat, n: nat, rest: string)
    requires 0 <= t < WORD && from <= n <= 4
    ensures 0 <= DigitSum(t, from) < WORD && 0 <= DigitSum(t, n) < WORD
    ensures Decoded(Dec(from, DigitSum(t, from), out), Chars(t, n)[from..] + rest) == Decoded(Dec(n, DigitSum(t, n), out), rest)
    decreases n - from
  {
    hide Digit, DigitSum, Decoded, AddDigit;
    DigitSumRange(t, from);
    DigitSumRange(t, n);
    if from == n {
      assert Chars(t, n)[from..] + rest == rest;
    } else {
      var c := DigitChar(Digit(t, from));
      var tail := Chars(t, n)[from + 1..] + rest;
      assert Chars(t, n)[from..] + rest == [c] + tail;
      AddOne(out, t, from);
      DecodeOne(Dec(from, DigitSum(t, from), out), c, tail);
      DecodeChars(out, t, from + 1, n, rest);
    }
  }

  lemma DecodeWord(out: seq<int>, t: int, rest: string)
    requires 0 <= t < WORD
    ensures Decoded(Dec(0, 0, out), Chars(t, 5) + rest) == Decoded(Dec(0, 0, out + HighBytes(t, 4)), rest)
  {
    hide Digit, Decoded, AddDigit, HighBytes;
    var c := DigitChar(Digit(t, 4));
    assert Chars(t, 5) + rest == Chars(t, 4)[0..] + ([c] + rest);
    DecodeChars(out, t, 0, 4, [c] + rest);
    AddOne(out, t, 4);
    DecodeOne(Dec(4, DigitSum(t, 4), out), c, rest);
  }

  /** The bytes above a byte boundary. */
  lemma Cut(high: int, low: int, k: nat)
    requires k < 4 && 0 <= low < Pow256(k)
    ensures (high * Pow256(k) + low) / Pow256(k) == high
  {
  }

  lemma LowByte(high: int, b: int)
    requires 0 <= b < 256
    ensures (high * 256 + b) % 256 == b
  {
  }

  /** Four bytes, read as a number, are its high bytes. */
  lemma WordBytes(b: seq<int>)
    requires |b| == 4 && AreBytes(b)
    ensures Tuple(b) == b[0] * 0x100_0000 + b[1] * 0x1_0000 + b[2] * 0x100 + b[3]
    ensures HighBytes(Tuple(b), 4) == b
  {
    TupleOf(b);
    HighBytesOf(b[0], b[1], b[2], b[3]);
    assert b == [b[0], b[1], b[2], b[3]];
  }

  lemma HighBytesOf(b0: int, b1: int, b2: int, b3: int)
    requires AreBytes([b0, b1, b2, b3])
    ensures HighBytes(b0 * 0x100_0000 + b1 * 0x1_0000 + b2 * 0x100 + b3, 4) == [b0, b1, b2, b3]
  {
    assert [b0, b1, b2, b3][0] == b0 && [b0, b1, b2, b3][1] == b1 && [b0, b1, b2, b3][2] == b2 && [b0, b1, b2, b3][3] == b3;
    Cut(b0, b1 * 0x1_0000 + b2 * 0x100 + b3, 0);
    Cut(b0 * 256 + b1, b2 * 0x100 + b3, 1);
    Cut(b0 * 0x1_0000 + b1 * 256 + b2, b3, 2);
    LowByte(0, b0);
    LowByte(b0, b1);
    LowByte(b0 * 256 + b1, b2);
    LowByte(b0 * 0x1_0000 + b1 * 256 + b2, b3);
  }

  lemma TupleOf(b: seq<int>)
    requires |b| <= 4
    ensures |b| == 1 ==> Tuple(b) == b[0] * 0x100_0000
    ensures |b| == 2 ==> Tuple(b) == b[0] * 0x100_0000 + b[1] * 0x1_0000
    ensures |b| == 3 ==> Tuple(b) == b[0] * 0x100_0000 + b[1] * 0x1_0000 + b[2] * 0x100
    ensures |b| == 4 ==> Tuple(b) == b[0] * 0x100_0000 + b[1] * 0x1_0000 + b[2] * 0x100 + b[3]
  {
    if b != [] {
      TupleOf(b[..|b| - 1]);
    }
  }

  lemma DecodeGroup(out: seq<int>, b: seq<int>, rest: string)
    requires |b| == 4 && AreBytes(b)
    ensures Decoded(Dec(0, 0, out), Group(b) + rest) == Decoded(Dec(0, 0, out + b), rest)
  {
    WordBytes(b);
    TupleRange(b);
    if Tuple(b) == 0 {
      assert b == [0, 0, 0, 0];
      assert ("z" + rest)[1..] == rest;
    } else {
      DecodeWord(out, Tuple(b), rest);
    }
  }

  /** A number just above t, by no more than a byte's weight, has the same bytes down to there. */
  lemma KeptBytes(b: seq<int>, kept: int)
    requires 1 <= |b| <= 3 && AreBytes(b) && Tuple(b) <= kept < Tuple(b) + Pow256(|b| - 1)
    ensures HighBytes(kept, |b|) == b
  {
    TupleOf(b);
    var low := kept - Tuple(b);
    if |b| == 1 {
      Cut(b[0], low, 0);
      LowByte(0, b[0]);
    } else if |b| == 2 {
      Cut(b[0], b[1] * 0x1_0000 + low, 0);
      Cut(b[0] * 256 + b[1], low, 1);
      LowByte(0, b[0]);
      LowByte(b[0], b[1]);
    } else {
      Cut(b[0], b[1] * 0x1_0000 + b[2] * 0x100 + low, 0);
      Cut(b[0] * 256 + b[1], b[2] * 0x100 + low, 1);
      Cut(b[0] * 0x1_0000 + b[1] * 256 + b[2], low, 2);
      LowByte(0, b[0]);
      LowByte(b[0], b[1]);
      LowByte(b[0] * 256 + b[1], b[2]);
    }
  }

  /** One to three bytes: adding the weight of the last digit kept restores every kept byte, and
      disturbs none. */
  lemma TailBytes(b: seq<int>)
    requires 1 <= |b| <= 3 && AreBytes(b)
    ensures 0 <= Tuple(b) < WORD && DigitSum(Tuple(b), |b| + 1) + Pow85(|b|) < WORD
    ensures HighBytes(DigitSum(Tuple(b), |b| + 1) + Pow85(|b|), |b|) == b
  {
    hide Tuple, HighBytes, DigitSum;
    TupleRange(b);
    var t := Tuple(b);
    DigitSumIs(t);
    KeptBytes(b, DigitSum(t, |b| + 1) + Pow85(|b|));
  }

  /** The end mark closes the data, after a line break or not. */
  lemma DecodeEnding(d: Dec, pos: nat, width: nat)
    requires DecOk(d)
    ensures Decoded(d, Ending(pos, width)) == Accepted(Flush(d))
  {
    assert "~>\n"[1..] == ">\n";
    assert ("\n" + "~>\n")[1..] == "~>\n";
  }

  /** Without line breaks, decoding undoes encoding, whatever the length. */
  lemma {:induction false} DecodeRaw(out: seq<int>, b: seq<int>, pos: nat, width: nat)
    requires AreBytes(b)
    ensures Decoded(Dec(0, 0, out), Raw(b) + Ending(pos, width)) == Accepted(out + b)
    decreases |b|
  {
    hide Decoded, Chars, DigitSum, Tuple, HighBytes, Ending;
    var e := Ending(pos, width);
    if b == [] {
      assert Raw(b) + e == e && out + b == out;
      DecodeEnding(Dec(0, 0, out), pos, width);
    } else if |b| < 4 {
      TailBytes(b);
      DigitSumRange(Tuple(b), 0);
      var t, n := Tuple(b), |b| + 1;
      NoDigits(t);
      assert Chars(t, n)[0..] == Chars(t, n);
      DecodeChars(out, t, 0, n, e);
      DecodeEnding(Dec(n, DigitSum(t, n), out), pos, width);
    } else {
      var rest := Raw(b[4..]) + e;
      RawHead(b);
      assert Raw(b) + e == Group(b[..4]) + rest;
      DecodeGroup(out, b[..4], rest);
      DecodeRaw(out + b[..4], b[4..], pos, width);
      assert out + b[..4] + b[4..] == out + b;
    }
  }

  lemma NoDigits(t: int)
    requires 0 <= t < WORD
    ensures DigitSum(t, 0) == 0
  {
  }

  lemma RawHead(b: seq<int>)
    requires AreBytes(b) && |b| >= 4
    ensures Raw(b) == Group(b[..4]) + Raw(b[4..])
  {
    if |b| == 4 {
      assert b[..4] == b && b[4..] == [];
    }
  }

  lemma {:induction false} RawPlain(b: seq<int>)
    requires AreBytes(b)
    ensures Plain(Raw(b))
    decreases |b|
  {
    hide Digit, Tuple;
    if b != [] {
      var g := if |b| <= 4 then b else b[..4];
      TupleRange(g);
      assert Plain(Group(g));
      if |b| > 4 {
        RawPlain(b[4..]);
      }
    }
  }

  /** Decoding what was encoded gives back the same bytes, for every input and every width. */
  lemma RoundTrip(b: seq<int>, width: nat)
    requires AreBytes(b)
    ensures Decoded(Dec(0, 0, []), Encoded(b, width)) == Accepted(b)
  {
    hide Decoded, Raw, Lines, Ending;
    RawPlain(b);
    var (o, pos) := Lines(Raw(b), 0, width);
    BreaksSkipped(Dec(0, 0, []), Raw(b), 0, width, Ending(pos, width));
    DecodeRaw([], b, pos, width);
    assert [] + b == b;
  }

  // ---- What the characters mean ----

  /** The number that some bytes stand for, most significant byte first. */
  function BigEndian(b: seq<int>): int {
    if b == [] then 0 else 256 * BigEndian(b[..|b| - 1]) + b[|b| - 1]
  }

  /** The number that some digits stand for; the first digit is an exclamation mark. */
  function Value(s: string): int {
    if s == "" then 0 else 85 * Value(s[..|s| - 1]) + (s[|s| - 1] as int - '!' as int)
  }

  /** Four zero bytes are one z. Other groups have a digit more than bytes, and the digits stand for the
      first ones of the number that the bytes are, filled up with zeros to four. */
  lemma GroupMeans(b: seq<int>)
    requires 0 < |b| <= 4 && AreBytes(b)
    ensures Group(b) == "z" <==> b == [0, 0, 0, 0]
    ensures Group(b) != "z" ==> |Group(b)| == |b| + 1 && forall i | 0 <= i <= |b| :: '!' <= Group(b)[i] <= 'u'
    ensures Group(b) != "z" ==> Value(Group(b)) == BigEndian(b) * Pow256(|b| - 1) / Pow85(|b|)
  {
    hide Value, BigEndian, Digit, Tuple, Pow85, Pow256;
    TupleRange(b);
    TupleIs(b);
    ZeroTuple(b);
    if b != [0, 0, 0, 0] {
      assert Group(b) == Chars(Tuple(b), |b| + 1);
      ValueIs(Tuple(b), |b| + 1);
    }
  }

  lemma ZeroTuple(b: seq<int>)
    requires |b| <= 4 && AreBytes(b)
    ensures |b| == 4 && Tuple(b) == 0 <==> b == [0, 0, 0, 0]
  {
    TupleOf(b);
  }

  lemma TupleIs(b: seq<int>)
    requires 0 < |b| <= 4 && AreBytes(b)
    ensures Tuple(b) == BigEndian(b) * Pow256(|b| - 1)
  {
    TupleOf(b);
    assert BigEndian(b[..1]) == b[0] by { assert b[..1][..0] == []; }
    if |b| >= 2 {
      assert b[..2][..1] == b[..1] && b[..2][1] == b[1];
    }
    if |b| >= 3 {
      assert b[..3][..2] == b[..2] && b[..3][2] == b[2];
    }
    assert b[..|b|] == b;
  }

  lemma {:induction false} ValueIs(t: int, n: nat)
    requires 0 <= t < WORD && 0 < n <= 5
    ensures Value(Chars(t, n)) == t / Pow85(n - 1)
  {
    var s := Chars(t, n);
    assert s[|s| - 1] as int - '!' as int == Digit(t, n - 1);
    FirstDigit(t);
    if n == 1 {
      assert s[..0] == "";
    } else {
      assert s[..n - 1] == Chars(t, n - 1);
      ValueIs(t, n - 1);
      NextDigit(t, n - 1);
    }
  }

  lemma FirstDigit(t: int)
    requires 0 <= t < WORD
    ensures Digit(t, 0) == t / Pow85(0)
  {
    assert t / 52200625 < 85;
  }

  lemma NextDigit(t: int, k: nat)
    requires 0 <= t < WORD && 0 < k < 5
    ensures t / Pow85(k) == 85 * (t / Pow85(k - 1)) + Digit(t, k)
  {
    By85(t / Pow85(k));
    if k == 1 {
      Div52200625(t);
    } else if k == 2 {
      Div614125(t);
    } else if k == 3 {
      Div7225(t);
    }
  }

  // ---- Line length ----

  predicate NoBreak(s: string) {
    forall i | 0 <= i < |s| :: s[i] != '\n'
  }

  /** No stretch without a line break is longer than `limit`, and none at the end than `last`. */
  ghost predicate LinesFit(s: string, limit: nat, last: nat) {
    forall i, j | 0 <= i <= j <= |s| && NoBreak(s[i..j]) :: j - i <= limit && (j == |s| ==> j - i <= last)
  }

  lemma FitChar(s: string, limit: nat, last: nat, c: char)
    requires LinesFit(s, limit, last) && last < limit && c != '\n'
    ensures LinesFit(s + [c], limit, last + 1)
  {
    forall i, j | 0 <= i <= j <= |s| + 1 && NoBreak((s + [c])[i..j])
      ensures j - i <= limit && (j == |s| + 1 ==> j - i <= last + 1)
    {
      if j <= |s| {
        assert (s + [c])[i..j] == s[i..j];
      } else if i <= |s| {
        assert (s + [c])[i..j][..j - i - 1] == s[i..|s|];
      }
    }
  }

  lemma FitBreak(s: string, limit: nat, last: nat)
    requires LinesFit(s, limit, last)
    ensures LinesFit(s + "\n", limit, 0)
  {
    forall i, j | 0 <= i <= j <= |s| + 1 && NoBreak((s + "\n")[i..j])
      ensures j - i <= limit && (j == |s| + 1 ==> j - i <= 0)
    {
      if j <= |s| {
        assert (s + "\n")[i..j] == s[i..j];
      } else if i <= |s| {
        BreakAtEnd(s, i, j);
      }
    }
  }

  lemma BreakAtEnd(s: string, i: nat, j: nat)
    requires i <= |s| && j == |s| + 1
    ensures !NoBreak((s + "\n")[i..j])
  {
    assert (s + "\n")[i..j][j - i - 1] == '\n';
  }

  lemma {:induction false} LinesShort(s: string, width: nat)
    requires NoBreak(s)
    ensures var (o, pos) := Lines(s, 0, width); pos <= width && LinesFit(o, width + 1, pos)
  {
    hide LinesFit;
    if s == "" {
      FitNothing(width);
    } else {
      var n := |s| - 1;
      var (o, p) := Lines(s[..n], 0, width);
      LinesShort(s[..n], width);
      FitChar(o, width + 1, p, s[n]);
      assert o + Line(s[n], p, width) == if p >= width then o + [s[n]] + "\n" else o + [s[n]];
      if p >= width {
        FitBreak(o + [s[n]], width + 1, p + 1);
      }
    }
  }

  lemma FitNothing(width: nat)
    ensures LinesFit("", width + 1, 0)
  {
  }

  /** No line of the output is longer than width + 1 characters. */
  lemma LinesAreShort(b: seq<int>, width: nat)
    requires AreBytes(b) && width >= 1
    ensures LinesFit(Encoded(b, width), width + 1, 0)
  {
    hide LinesFit, Raw, Lines;
    RawPlain(b);
    LinesShort(Raw(b), width);
    var (o, pos) := Lines(Raw(b), 0, width);
    var o2, pos2 := o, pos;
    if pos + 2 > width {
      FitBreak(o, width + 1, pos);
      o2, pos2 := o + "\n", 0;
    }
    FitChar(o2, width + 1, pos2, '~');
    FitChar(o2 + "~", width + 1, pos2 + 1, '>');
    FitBreak(o2 + "~" + ">", width + 1, pos2 + 2);
    assert Encoded(b, width) == o2 + "~" + ">" + "\n";
  }

  /** Where a character stands when the lines before it are full. */
  function PlaceOf(i: nat, width: nat): nat {
    i + i / (width + 1)
  }

  /** Where the line breaks stand: all lines have width + 1 characters. */
  function BreakOf(line: nat, width: nat): nat {
    line * (width + 2) + width + 1
  }

  /** Breaking into lines puts every character in its place, and a line break after every width + 1 of
      them. */
  lemma {:induction false} LinesLayout(s: string, width: nat)
    ensures var (o, pos) := Lines(s, 0, width);
            && pos == |s| % (width + 1) && |o| == PlaceOf(|s|, width)
            && (forall i: nat | i < |s| :: PlaceOf(i, width) < |o| && o[PlaceOf(i, width)] == s[i])
            && (forall m: nat | m < |s| / (width + 1) :: BreakOf(m, width) < |o| && o[BreakOf(m, width)] == '\n')
    decreases |s|
  {
    if s != "" {
      var n := |s| - 1;
      var (o, p) := Lines(s[..n], 0, width);
      LinesLayout(s[..n], width);
      NextPlace(n, width);
      var more := o + Line(s[n], p, width);
      assert Lines(s, 0, width).0 == more;
      forall i: nat | i < |s| ensures PlaceOf(i, width) < |more| && more[PlaceOf(i, width)] == s[i] {
        if i < n {
          assert s[..n][i] == s[i];
        }
      }
    }
  }

  /** The place of the next character: one further, and two behind the end of a line. */
  lemma NextPlace(n: nat, width: nat)
    ensures var q := n / (width + 1);
            if n % (width + 1) == width
            then (n + 1) % (width + 1) == 0 && (n + 1) / (width + 1) == q + 1 && PlaceOf(n + 1, width) == PlaceOf(n, width) + 2
                 && BreakOf(q, width) == PlaceOf(n, width) + 1
            else (n + 1) % (width + 1) == n % (width + 1) + 1 && (n + 1) / (width + 1) == q && n % (width + 1) < width
                 && PlaceOf(n + 1, width) == PlaceOf(n, width) + 1
  {
    var m, q, r := width + 1, n / (width + 1), n % (width + 1);
    assert n == m * q + r;
    if r == width {
      assert n + 1 == m * (q + 1);
      Quotient(m, q + 1, 0);
      assert q * (width + 2) == m * q + q;
    } else {
      Quotient(m, q, r + 1);
    }
  }

  lemma Quotient(m: nat, q: nat, r: nat)
    requires 0 <= r < m
    ensures (m * q + r) / m == q && (m * q + r) % m == r
  {
    var x := m * q + r;
    var d := x / m - q;
    assert x == m * (x / m) + x % m;
    assert m * d == r - x % m;
    MultipleSize(m, d);
  }

  // ---- Where the decoder never stops ----

  /** After a tilde, the decoder never stops reading exactly when nothing but white space follows. */
  lemma {:induction false} CloseEndless(d: Dec, s: string)
    requires DecOk(d)
    ensures Close(d, s).Endless? <==> s != "" && forall i | 0 <= i < |s| :: Skipped(s[i])
    decreases |s|
  {
    if s != "" && s[0] != '>' && Skipped(s[0]) {
      CloseEndless(d, s[1..]);
      assert s == [s[0]] + s[1..];
    }
  }

  function DigitCount(s: string): nat {
    if s == "" then 0 else (if IsDigit(s[0]) then 1 else 0) + DigitCount(s[1..])
  }

  /** A decoder that has read `count` digits of a group gets past the first k characters: there is no
      tilde among them, and every z stands between groups. */
  predicate GetsPast(count: nat, s: string, k: nat) {
    k <= |s| && forall i | 0 <= i < k :: s[i] != '~' && (s[i] == 'z' ==> (count + DigitCount(s[..i])) % 5 == 0)
  }

  /** At k stands the first tilde that the decoder comes to, and then only white space. */
  predicate HangsAt(count: nat, s: string, k: nat) {
    k + 1 < |s| && GetsPast(count, s, k) && s[k] == '~' && forall i | k < i < |s| :: Skipped(s[i])
  }

  function CountAfter(count: nat, c: char): nat {
    if IsDigit(c) then (count + 1) % 5 else count
  }

  lemma HangsLater(count: nat, s: string, k: nat)
    requires count < 5 && s != "" && s[0] != '~' && (s[0] == 'z' ==> count == 0)
    ensures HangsAt(count, s, k + 1) <==> HangsAt(CountAfter(count, s[0]), s[1..], k)
  {
    var c2, t := CountAfter(count, s[0]), s[1..];
    if k <= |t| {
      forall i | 0 <= i < k
        ensures t[i] == s[i + 1] && (count + DigitCount(s[..i + 1])) % 5 == (c2 + DigitCount(t[..i])) % 5
      {
        assert s[..i + 1][1..] == t[..i];
        DigitMore(count, DigitCount(t[..i]));
      }
    }
    assert forall i | 0 <= i < |t| :: t[i] == s[i + 1];
    if HangsAt(count, s, k + 1) {
      forall i | 0 <= i < k ensures t[i] != '~' && (t[i] == 'z' ==> (c2 + DigitCount(t[..i])) % 5 == 0) {
        assert s[i + 1] == t[i];
      }
    }
    if HangsAt(c2, t, k) {
      forall i | 0 <= i < k + 1 ensures s[i] != '~' && (s[i] == 'z' ==> (count + DigitCount(s[..i])) % 5 == 0) {
        if i > 0 {
          assert t[i - 1] == s[i];
        }
      }
    }
  }

  lemma DigitMore(count: nat, n: nat)
    ensures (count + 1 + n) % 5 == ((count + 1) % 5 + n) % 5
  {
  }

  /** On a whole input, the decoder never stops reading if and only if it comes to a tilde, at least
      one character follows it, and all that follows is white space. */
  lemma {:induction false} EndlessWhen(d: Dec, s: string)
    requires DecOk(d)
    ensures Decoded(d, s).Endless? <==> exists k: nat :: HangsAt(d.count, s, k)
    decreases |s|
  {
    hide HangsAt, Close, HighBytes;
    if s == "" {
      NothingHangs(d.count, s);
    } else if s[0] == '~' {
      CloseEndless(d, s[1..]);
      TildeHangs(d.count, s);
    } else if s[0] == 'z' && d.count != 0 {
      LateZ(d.count, s);
    } else {
      var d2 := if IsDigit(s[0]) then AddDigit(d, s[0]) else if s[0] == 'z' then d.(out := d.out + [0, 0, 0, 0]) else d;
      assert d2.count == CountAfter(d.count, s[0]);
      EndlessWhen(d2, s[1..]);
      NotHere(d.count, s);
      if k: nat :| HangsAt(d.count, s, k) {
        HangsLater(d.count, s, k - 1);
        assert HangsAt(d2.count, s[1..], k - 1);
      }
      if k: nat :| HangsAt(d2.count, s[1..], k) {
        HangsLater(d.count, s, k);
        assert HangsAt(d.count, s, k + 1);
      }
    }
  }

  lemma NothingHangs(count: nat, s: string)
    requires s == ""
    ensures forall k: nat :: !HangsAt(count, s, k)
  {
  }

  lemma NotHere(count: nat, s: string)
    requires s != "" && s[0] != '~'
    ensures !HangsAt(count, s, 0)
  {
  }

  lemma LateZ(count: nat, s: string)
    requires 0 < count < 5 && s != "" && s[0] == 'z'
    ensures forall k: nat :: !HangsAt(count, s, k)
  {
    assert DigitCount(s[..0]) == 0;
  }

  lemma TildeHangs(count: nat, s: string)
    requires s != "" && s[0] == '~'
    ensures (exists k: nat :: HangsAt(count, s, k)) <==> s[1..] != "" && forall i | 0 <= i < |s[1..]| :: Skipped(s[1..][i])
  {
    assert forall k: nat | k > 0 :: !HangsAt(count, s, k);
    if s[1..] != "" && forall i | 0 <= i < |s[1..]| :: Skipped(s[1..][i]) {
      forall i | 0 < i < |s| ensures Skipped(s[i]) {
        assert s[i] == s[1..][i - 1];
      }
      assert HangsAt(count, s, 0);
    }
  }

  /** The shortest such input: a tilde and a line break. */
  lemma EndlessInput()
    ensures Decoded(Dec(0, 0, []), "~\n").Endless?
  {
    assert HangsAt(0, "~\n", 0);
    EndlessWhen(Dec(0, 0, []), "~\n");
  }
}
