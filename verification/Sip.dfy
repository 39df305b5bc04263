/** write_sip of imitate.c: a SIP response header whose Content-Length has to
    count the bytes behind it, while its own number of digits moves them. */
module Sip {
  import opened Prng
  import opened Words

  /** decimal_digits */
  function Digits(v: int): (n: nat)
    ensures n >= 1
  {
    if v < 10 then 1 else 1 + Digits(v / 10)
  }

  method DecimalDigits(value: int) returns (digits: nat)
    ensures digits == Digits(value)
  {
    var v := value;
    digits := 1;
    while v >= 10
      invariant digits >= 1 && digits - 1 + Digits(v) == Digits(value)
      decreases v
    {
      v := v / 10;
      digits := digits + 1;
    }
  }

  /** One more has as many digits, or one more. */
  lemma {:induction false} DigitsNext(v: nat)
    ensures Digits(v) <= Digits(v + 1) <= Digits(v) + 1
  {
    if v >= 9 {
      if v % 10 == 9 {
        if v >= 10 {
          DigitsNext(v / 10);
        }
        assert (v + 1) / 10 == v / 10 + 1;
      } else {
        assert (v + 1) / 10 == v / 10;
      }
    }
  }

  lemma {:induction false} DigitsMonotone(v: nat, w: nat)
    requires v <= w
    ensures Digits(v) <= Digits(w)
    decreases w - v
  {
    if v < w {
      DigitsNext(v);
      DigitsMonotone(v + 1, w);
    }
  }

  /** x counts the bytes from the end of "Content-Length:" and the four line-end bytes on; after sws spaces and d
      digits x - sws - d of them are left. */
  predicate Fits(x: int, sws: nat, d: nat) {
    Digits(x - sws - d) == d
  }

  /** Where no number of digits up to n fits behind one space, the jump past it fits behind two. */
  lemma {:induction false} TwoSpacesFit(x: int, n: nat) returns (d: nat)
    requires n >= 1 && x - 2 - n >= 0 && Digits(x - 1 - n) < n
    requires forall k :: 1 <= k <= n ==> !Fits(x, 1, k)
    ensures 1 <= d < n && Fits(x, 2, d)
  {
    if n == 1 {
      assert false;
    } else if Digits(x - 1 - (n - 1)) < n - 1 {
      d := TwoSpacesFit(x, n - 1);
    } else {
      assert !Fits(x, 1, n - 1);
      DigitsNext(x - 1 - n);
      d := n - 1;
    }
  }

  /** The search over both spacings always finds a number of digits, at most that of total. */
  lemma {:induction false} SearchSucceeds(x: int, total: nat)
    requires x <= total && x - 2 - Digits(total) >= 0
    ensures exists sws, d :: 1 <= sws <= 2 && 1 <= d <= Digits(total) && Fits(x, sws, d)
  {
    var n := Digits(total);
    if k :| 1 <= k <= n && Fits(x, 1, k) {
    } else {
      DigitsMonotone(x - 1 - n, total);
      assert !Fits(x, 1, n);
      var d := TwoSpacesFit(x, n);
      assert Fits(x, 2, d);
    }
  }

  // ---- numbers as text ----

  function Digit(d: nat): char
    requires d < 10
  {
    "0123456789"[d]
  }

  /** %d of a number that is not negative */
  function Dec(v: nat): (s: string)
    ensures |s| == Digits(v)
  {
    if v < 10 then [Digit(v)] else Dec(v / 10) + [Digit(v % 10)]
  }

  function DigitValue(c: char): nat {
    if '0' <= c <= '9' then c as nat - '0' as nat else 0
  }

  function ParseDec(s: string): nat {
    if s == [] then 0 else 10 * ParseDec(s[..|s| - 1]) + DigitValue(s[|s| - 1])
  }

  lemma DigitReads(d: nat)
    requires d < 10
    ensures DigitValue(Digit(d)) == d
  {
  }

  lemma {:induction false} ParseNext(s: string, d: nat)
    requires d < 10
    ensures ParseDec(s + [Digit(d)]) == 10 * ParseDec(s) + d
  {
    DigitReads(d);
    hide Digit, DigitValue;
    assert (s + [Digit(d)])[..|s|] == s;
  }

  lemma {:induction false} ParseDecOfDec(v: nat)
    ensures ParseDec(Dec(v)) == v
  {
    if v < 10 {
      ParseNext([], v);
      assert [] + [Digit(v)] == Dec(v);
    } else {
      hide ParseDec, Digit;
      ParseDecOfDec(v / 10);
      ParseNext(Dec(v / 10), v % 10);
    }
  }

  /** The last n hexadecimal digits of v, for %08x */
  function Hex(v: nat, n: nat): (s: string)
    ensures |s| == n
  {
    if n == 0 then [] else Hex(v / 16, n - 1) + ["0123456789abcdef"[v % 16]]
  }

  function HexValue(c: char): nat {
    if '0' <= c <= '9' then c as nat - '0' as nat else if 'a' <= c <= 'f' then 10 + c as nat - 'a' as nat else 0
  }

  function ParseHex(s: string): nat {
    if s == [] then 0 else 16 * ParseHex(s[..|s| - 1]) + HexValue(s[|s| - 1])
  }

  lemma HexDigitReads(d: nat)
    requires d < 16
    ensures HexValue("0123456789abcdef"[d]) == d
  {
  }

  /** The digits of a 32-bit number are read back. */
  lemma {:induction false} ParseHexOfHex(v: nat, n: nat)
    ensures ParseHex(Hex(v, n)) == v % Pow2(4 * n)
  {
    if n == 0 {
      assert Pow2(0) == 1;
    } else {
      hide Pow2, Hex, ParseHex;
      ParseHexOfHex(v / 16, n - 1);
      HexNext(v, n);
      var d := Sixteen(n);
      DigitMod(v, d);
    }
  }

  lemma {:induction false} Sixteen(n: nat) returns (d: nat)
    requires n > 0
    ensures d == Pow2(4 * (n - 1)) > 0 && d * 16 == Pow2(4 * n)
  {
    hide Pow2;
    SmallPowers();
    d := Pow2(4 * (n - 1));
    Pow2Add(4 * (n - 1), 4);
  }

  lemma {:induction false} DigitMod(v: nat, d: nat)
    requires d > 0
    ensures v % (d * 16) == 16 * (v / 16 % d) + v % 16
  {
    var w := v / 16;
    var q, r := w / d, w % d;
    ModParts(v, 16);
    ModParts(w, d);
    Associate(q, d, 16);
    DivUnique(v, d * 16, q, 16 * r + v % 16);
  }

  lemma {:induction false} HexNext(v: nat, n: nat)
    requires n > 0
    ensures ParseHex(Hex(v, n)) == 16 * ParseHex(Hex(v / 16, n - 1)) + v % 16
  {
    HexDigitReads(v % 16);
    hide HexValue;
    assert Hex(v, n)[..n - 1] == Hex(v / 16, n - 1) && Hex(v, n)[n - 1] == "0123456789abcdef"[v % 16];
  }

  // ---- the text, as a function of the lengths and the seed ----

  function StatusLine(i: nat): string {
    "SIP/2.0 " + (if i % 3 == 0 then "100 Trying" else if i % 3 == 1 then "180 Ringing" else "200 OK") + "\r\n"
  }

  function Host(i: nat): string {
    if i % 3 == 0 then "sip.example.com" else if i % 3 == 1 then "pbx.example.net" else "voip.example.org"
  }

  function Method(i: nat): string {
    if i % 3 == 0 then "INVITE" else if i % 3 == 1 then "OPTIONS" else "REGISTER"
  }

  /** The five lines behind the status line */
  function Mandatory(seed: nat): (lines: seq<string>)
    ensures |lines| == 5
  {
    var host := Host(Draw(seed, 1));
    [ "Via: SIP/2.0/UDP " + host + ":5060;branch=z9hG4bK" + Hex(Draw(seed, 3), 8) + ";rport" + "\r\n",
      "From: <sip:caller@" + host + ">;tag=" + Hex(Draw(seed, 4), 8) + "\r\n",
      "To: <sip:callee@" + host + ">;tag=" + Hex(Draw(seed, 5), 8) + "\r\n",
      "Call-ID: " + Hex(Draw(seed, 6), 8) + "@" + host + "\r\n",
      "CSeq: " + Dec(1 + Draw(seed, 7) % 100000) + " " + Method(Draw(seed, 2)) + "\r\n" ]
  }

  /** sip_putline's test */
  predicate Room(text: string, line: string, length: nat) {
    |text| + |line| + 2 <= length
  }

  /** The lines one by one, as long as they fit, and whether all did */
  function Fill(text: string, lines: seq<string>, length: nat): (string, bool)
    decreases |lines|
  {
    if lines == [] then (text, true)
    else if Room(text, lines[0], length) then Fill(text + lines[0], lines[1..], length)
    else (text, false)
  }

  /** The search for sws spaces, from d digits on */
  function Search(pos: nat, total: int, length: nat, sws: nat, d: nat): (r: nat)
    decreases Digits(total) + 1 - d
  {
    var end := pos + 19 + sws + d;
    if d > Digits(total) || end > length then 0
    else if Digits(total - end) == d then d
    else Search(pos, total, length, sws, d + 1)
  }

  function Spaces(n: nat): (s: string)
    ensures |s| == n
  {
    seq(n, _ => ' ')
  }

  /** The Content-Length line, empty if the search fails */
  function LengthLine(pos: nat, total: int, length: nat): string {
    var d1 := Search(pos, total, length, 1, 1);
    if d1 > 0 then LengthText(1, total - (pos + 20 + d1))
    else
      var d2 := Search(pos, total, length, 2, 1);
      if d2 > 0 then LengthText(2, total - (pos + 21 + d2)) else ""
  }

  function LengthText(sws: nat, body: int): string {
    "Content-Length:" + Spaces(sws) + Dec(if body >= 0 then body else 0) + "\r\n"
  }

  function Close(text: string, length: nat): string {
    if |text| + 2 <= length then text + "\r\n" else text
  }

  lemma {:induction false} SearchFinds(pos: nat, total: int, length: nat, sws: nat, d: nat, x: int)
    requires 1 <= d <= Digits(total) + 1 && pos + 19 + sws + Digits(total) <= length && x == total - pos - 19
    ensures var r := Search(pos, total, length, sws, d);
      && (r > 0 ==> d <= r <= Digits(total) && Fits(x, sws, r))
      && (r == 0 ==> forall k :: d <= k <= Digits(total) ==> !Fits(x, sws, k))
    decreases Digits(total) + 1 - d
  {
    hide Digits;
    if d <= Digits(total) && Digits(total - (pos + 19 + sws + d)) != d {
      SearchFinds(pos, total, length, sws, d + 1, x);
    }
  }

  /** With room for the line and the blank one behind it, the number written is that of the bytes behind these. */
  lemma {:induction false} LengthIsRight(pos: nat, total: int, length: nat) returns (sws: nat, body: nat)
    requires pos + 21 + Digits(total) <= length <= total
    ensures 1 <= sws <= 2 && LengthLine(pos, total, length) == LengthText(sws, body)
    ensures body == total - (pos + |LengthText(sws, body)| + 2) && pos + |LengthText(sws, body)| + 2 <= length
  {
    hide Digits, Search, Dec;
    var x := total - pos - 19;
    SearchFinds(pos, total, length, 1, 1, x);
    SearchFinds(pos, total, length, 2, 1, x);
    SearchSucceeds(x, total);
    var d1, d2 := Search(pos, total, length, 1, 1), Search(pos, total, length, 2, 1);
    if d1 > 0 {
      assert Fits(x, 1, d1);
      sws, body := 1, x - 1 - d1;
    } else {
      assert Fits(x, 2, d2);
      sws, body := 2, x - 2 - d2;
    }
  }

  /** The first status line that fits, of the three from i on */
  function Status(i: nat, k: nat, length: nat): string
    decreases 3 - k
  {
    if k >= 3 then ""
    else if Room("", StatusLine(i + k), length) then StatusLine(i + k)
    else Status(i, k + 1, length)
  }

  function Frag(): (s: string)
    ensures |s| == 20
  {
    "SIP/2.0 100 Trying\r\n"
  }

  /** What is written where not even a status line fits */
  function Fragment(length: nat): (s: string)
    ensures |s| == length
  {
    var frag := Frag();
    var take := if |frag| > length then length else |frag|;
    var t := frag[..take] + Spaces(length - take);
    if length >= 2 then t[..length - 2] + "\r\n" else t
  }

  /** The header lines, without the blank one */
  function Header(total: int, length: nat, seed: nat): string {
    var (text, all) := Fill(Status(Draw(seed, 0), 0, length), Mandatory(seed), length);
    if all then text + LengthLine(|text|, total, length) else text
  }

  function Text(total: int, length: nat, seed: nat): string {
    if Status(Draw(seed, 0), 0, length) == "" then Fragment(length)
    else
      var t := Close(Header(total, length, seed), length);
      t + Spaces(if |t| <= length then length - |t| else 0)
  }

  lemma {:induction false} FillLength(text: string, lines: seq<string>, length: nat)
    requires |text| <= length
    ensures |Fill(text, lines, length).0| <= length
    decreases |lines|
  {
    if lines != [] && Room(text, lines[0], length) {
      FillLength(text + lines[0], lines[1..], length);
    }
  }

  lemma {:induction false} StatusLength(i: nat, k: nat, length: nat)
    ensures |Status(i, k, length)| <= length
    decreases 3 - k
  {
    if k < 3 {
      StatusLength(i, k + 1, length);
    }
  }

  lemma {:induction false} SearchEnds(pos: nat, total: int, length: nat, sws: nat, d: nat)
    requires d >= 1
    ensures var r := Search(pos, total, length, sws, d);
      r > 0 ==> pos + 19 + sws + r <= length && Digits(total - (pos + 19 + sws + r)) == r
    decreases Digits(total) + 1 - d
  {
    hide Digits;
    if d <= Digits(total) && Digits(total - (pos + 19 + sws + d)) != d {
      SearchEnds(pos, total, length, sws, d + 1);
    }
  }

  lemma {:induction false} LineLength(pos: nat, total: int, length: nat)
    requires pos <= length
    ensures pos + |LengthLine(pos, total, length)| <= length
  {
    SearchEnds(pos, total, length, 1, 1);
    SearchEnds(pos, total, length, 2, 1);
    hide Search;
  }

  /** The text fills the padding. */
  lemma {:induction false} TextLength(total: int, length: nat, seed: nat)
    ensures |Text(total, length, seed)| == length
  {
    hide Status, Fill, Mandatory, LengthLine, Draw, Fragment;
    StatusLength(Draw(seed, 0), 0, length);
    FillLength(Status(Draw(seed, 0), 0, length), Mandatory(seed), length);
    LineLength(|Fill(Status(Draw(seed, 0), 0, length), Mandatory(seed), length).0|, total, length);
  }

  /** All lines fit, and the length line will. */
  predicate Roomy(total: int, length: nat, seed: nat) {
    && Status(Draw(seed, 0), 0, length) != ""
    && var (text, all) := Fill(Status(Draw(seed, 0), 0, length), Mandatory(seed), length);
    && all && |text| + 21 + Digits(total) <= length
  }

  lemma {:induction false} StatusFits(i: nat, length: nat)
    requires length >= 32
    ensures Status(i, 0, length) == StatusLine(i) && 0 < |StatusLine(i)| <= 21
  {
  }

  lemma {:induction false} LinesFit(seed: nat)
    ensures forall line :: line in Mandatory(seed) ==> |line| <= 80
  {
    assert Digits(1 + Draw(seed, 7) % 100000) <= 6 by {
      DigitsMonotone(1 + Draw(seed, 7) % 100000, 100000);
      HundredThousand();
    }
    hide Digits, Hex, Dec, Draw;
    var host, kind := Host(Draw(seed, 1)), Method(Draw(seed, 2));
    assert |host| <= 16 && |kind| <= 8;
    hide Host, Method;
  }

  lemma HundredThousand()
    ensures Digits(100000) == 6
  {
    assert Digits(10) == 2;
    assert Digits(100) == 3;
    assert Digits(1000) == 4;
    assert Digits(10000) == 5;
  }

  lemma {:induction false} FillFits(text: string, lines: seq<string>, length: nat)
    requires (forall line :: line in lines ==> |line| <= 80) && |text| + 80 * |lines| + 2 <= length
    ensures Fill(text, lines, length).1 && |Fill(text, lines, length).0| <= |text| + 80 * |lines|
    decreases |lines|
  {
    if lines != [] {
      assert lines[0] in lines;
      FillFits(text + lines[0], lines[1..], length);
    }
  }

  /** From 460 bytes on there is room for all of it. */
  lemma {:induction false} RoomFrom(total: nat, length: nat, seed: nat)
    requires length >= 460 && Digits(total) <= 10
    ensures Roomy(total, length, seed)
  {
    StatusFits(Draw(seed, 0), length);
    LinesFit(seed);
    hide Status, Mandatory, Fill, Digits, StatusLine, Draw;
    FillFits(Status(Draw(seed, 0), 0, length), Mandatory(seed), length);
  }

  /** A reader finds the blank line behind the header and, in the line before it, the number of bytes that follow. */
  lemma {:induction false} ContentLength(total: int, length: nat, seed: nat) returns (front: string, sws: nat, end: nat)
    requires Roomy(total, length, seed) && length <= total
    ensures end <= length && 1 <= sws <= 2
    ensures Text(total, length, seed)[..end] == front + "Content-Length:" + Spaces(sws) + Dec(total - end) + "\r\n\r\n"
    ensures ParseDec(Dec(total - end)) == total - end
  {
    hide Fill, Status, Mandatory, LengthLine, Dec, Digits;
    var (text, _) := Fill(Status(Draw(seed, 0), 0, length), Mandatory(seed), length);
    var body;
    sws, body := LengthIsRight(|text|, total, length);
    front := text;
    end := total - body;
    var line := LengthText(sws, body);
    assert Close(text + line, length) == text + line + "\r\n";
    assert Text(total, length, seed)[..end] == text + line + "\r\n";
    ParseDecOfDec(body);
  }

  // ---- a reader of the header (section 7 of RFC 3261) ----

  /** Up to where the line ends */
  function LineEnd(s: string): (n: nat)
    ensures n <= |s|
  {
    if s == [] || "\r\n" <= s then 0 else 1 + LineEnd(s[1..])
  }

  /** The lines up to the blank one */
  function ReadLines(s: string): seq<string>
    decreases |s|
  {
    var n := LineEnd(s);
    if n == 0 || n + 2 > |s| then [] else [s[..n]] + ReadLines(s[n + 2..])
  }

  /** The name of a header field */
  function FieldName(line: string): string {
    if line == [] || line[0] == ':' then "" else [line[0]] + FieldName(line[1..])
  }

  ghost predicate Plain(s: string) {
    '\r' !in s
  }

  ghost predicate IsLine(s: string) {
    |s| > 2 && s[|s| - 2..] == "\r\n" && Plain(s[..|s| - 2])
  }

  function Join(lines: seq<string>): string {
    if lines == [] then "" else lines[0] + Join(lines[1..])
  }

  lemma {:induction false} LineEnds(line: string, rest: string)
    requires Plain(line)
    ensures LineEnd(line + "\r\n" + rest) == |line|
  {
    var s := line + "\r\n" + rest;
    if line == [] {
      assert s[..2] == "\r\n";
    } else {
      assert s[0] == line[0] != '\r';
      LineEnds(line[1..], rest);
      assert s[1..] == line[1..] + "\r\n" + rest;
    }
  }

  lemma {:induction false} LinesRead(lines: seq<string>, rest: string)
    requires forall i :: 0 <= i < |lines| ==> IsLine(lines[i])
    ensures var r := ReadLines(Join(lines) + "\r\n" + rest);
      |r| == |lines| && forall i :: 0 <= i < |lines| ==> r[i] + "\r\n" == lines[i]
  {
    hide LineEnd;
    var s := Join(lines) + "\r\n" + rest;
    if lines == [] {
      LineEnds("", rest);
      assert s == "" + "\r\n" + rest;
    } else {
      var line, more := lines[0][..|lines[0]| - 2], Join(lines[1..]) + "\r\n" + rest;
      assert IsLine(lines[0]) && lines[0] == line + "\r\n";
      assert s == line + "\r\n" + more;
      LineEnds(line, more);
      LinesRead(lines[1..], rest);
      assert s[..|line|] == line && s[|line| + 2..] == more;
    }
  }

  lemma {:induction false} NameReads(name: string, rest: string)
    requires ':' !in name
    ensures FieldName(name + ":" + rest) == name
  {
    var s := name + ":" + rest;
    if name != [] {
      assert s[0] == name[0] && s[1..] == name[1..] + ":" + rest;
      NameReads(name[1..], rest);
    }
  }

  lemma {:induction false} FillAll(text: string, lines: seq<string>, length: nat)
    requires Fill(text, lines, length).1
    ensures Fill(text, lines, length).0 == text + Join(lines)
    decreases |lines|
  {
    if lines != [] {
      FillAll(text + lines[0], lines[1..], length);
    }
  }

  lemma {:induction false} DecPlain(v: nat)
    ensures Plain(Dec(v))
  {
    if v >= 10 {
      DecPlain(v / 10);
    }
  }

  lemma {:induction false} HexPlain(v: nat, n: nat)
    ensures Plain(Hex(v, n))
  {
    if n > 0 {
      HexPlain(v / 16, n - 1);
    }
  }

  /** One field line: it ends, and its name is what is before the colon. */
  ghost predicate Field(line: string, name: string) {
    IsLine(line) && FieldName(line[..|line| - 2]) == name
  }

  lemma {:induction false} FieldReads(name: string, body: string, line: string)
    requires line == body + "\r\n" && name + ":" <= body && ':' !in name && Plain(body)
    ensures Field(line, name)
  {
    assert line[..|line| - 2] == body;
    assert body == name + ":" + body[|name| + 1..];
    NameReads(name, body[|name| + 1..]);
  }

  lemma {:induction false} ViaReads(host: string, b: string, line: string)
    requires line == "Via: SIP/2.0/UDP " + host + ":5060;branch=z9hG4bK" + b + ";rport" + "\r\n" && Plain(host) && Plain(b)
    ensures Field(line, "Via")
  {
    hide Field;
    FieldReads("Via", "Via: SIP/2.0/UDP " + host + ":5060;branch=z9hG4bK" + b + ";rport", line);
  }

  lemma {:induction false} PartyReads(host: string, tag: string, from: string)
    requires from == "From: <sip:caller@" + host + ">;tag=" + tag + "\r\n" && Plain(host) && Plain(tag)
    ensures Field(from, "From")
  {
    hide Field;
    FieldReads("From", "From: <sip:caller@" + host + ">;tag=" + tag, from);
  }

  lemma {:induction false} OtherReads(host: string, tag: string, to: string)
    requires to == "To: <sip:callee@" + host + ">;tag=" + tag + "\r\n" && Plain(host) && Plain(tag)
    ensures Field(to, "To")
  {
    hide Field;
    FieldReads("To", "To: <sip:callee@" + host + ">;tag=" + tag, to);
  }

  lemma {:induction false} CallReads(host: string, id: string, n: string, kind: string, call: string, cseq: string)
    requires call == "Call-ID: " + id + "@" + host + "\r\n" && cseq == "CSeq: " + n + " " + kind + "\r\n"
    requires Plain(host) && Plain(id) && Plain(n) && Plain(kind)
    ensures Field(call, "Call-ID") && Field(cseq, "CSeq")
  {
    hide Field;
    FieldReads("Call-ID", "Call-ID: " + id + "@" + host, call);
    FieldReads("CSeq", "CSeq: " + n + " " + kind, cseq);
  }

  const FIELDS := ["Via", "From", "To", "Call-ID", "CSeq"]

  lemma {:induction false} MandatoryReads(seed: nat)
    ensures forall i :: 0 <= i < 5 ==> Field(Mandatory(seed)[i], FIELDS[i])
  {
    hide Hex, Dec, Draw, Field, Host, Method, Plain;
    var l := Mandatory(seed);
    var host, kind := Host(Draw(seed, 1)), Method(Draw(seed, 2));
    NamesPlain(Draw(seed, 1), Draw(seed, 2));
    HexPlain(Draw(seed, 3), 8);
    HexPlain(Draw(seed, 4), 8);
    HexPlain(Draw(seed, 5), 8);
    HexPlain(Draw(seed, 6), 8);
    DecPlain(1 + Draw(seed, 7) % 100000);
    ViaReads(host, Hex(Draw(seed, 3), 8), l[0]);
    PartyReads(host, Hex(Draw(seed, 4), 8), l[1]);
    OtherReads(host, Hex(Draw(seed, 5), 8), l[2]);
    CallReads(host, Hex(Draw(seed, 6), 8), Dec(1 + Draw(seed, 7) % 100000), kind, l[3], l[4]);
  }

  lemma NamesPlain(i: nat, j: nat)
    ensures Plain(Host(i)) && Plain(Method(j))
  {
  }

  lemma {:induction false} StatusReads(i: nat, k: nat, length: nat)
    requires Status(i, k, length) != ""
    ensures IsLine(Status(i, k, length)) && "SIP/2.0 " <= Status(i, k, length)[..|Status(i, k, length)| - 2]
    decreases 3 - k
  {
    if k < 3 {
      if Room("", StatusLine(i + k), length) {
        var line := StatusLine(i + k);
        assert Plain(line[..|line| - 2]);
      } else {
        StatusReads(i, k + 1, length);
      }
    }
  }

  /** The bytes that the lines take */
  function LinesSize(lines: seq<string>): nat {
    if lines == [] then 0 else |lines[0]| + 2 + LinesSize(lines[1..])
  }

  lemma {:induction false} SizeIs(r: seq<string>, lines: seq<string>)
    requires |r| == |lines| && forall i :: 0 <= i < |r| ==> r[i] + "\r\n" == lines[i]
    ensures LinesSize(r) == |Join(lines)|
  {
    if r != [] {
      assert r[0] + "\r\n" == lines[0];
      SizeIs(r[1..], lines[1..]);
    }
  }

  /** All the lines of the header */
  function AllLines(length: nat, seed: nat, sws: nat, body: nat): seq<string> {
    [Status(Draw(seed, 0), 0, length)] + Mandatory(seed) + [LengthText(sws, body)]
  }

  /** The text is these lines and the blank one. */
  lemma {:induction false} TextIsLines(total: int, length: nat, seed: nat) returns (sws: nat, body: nat, spaces: string)
    requires Roomy(total, length, seed) && length <= total
    ensures 1 <= sws <= 2
    ensures var lines := AllLines(length, seed, sws, body);
      Text(total, length, seed) == Join(lines) + "\r\n" + spaces && body == total - (|Join(lines)| + 2)
  {
    hide Fill, Status, Mandatory, LengthLine, Dec, Digits, Draw, Join;
    var status := Status(Draw(seed, 0), 0, length);
    var (text, _) := Fill(status, Mandatory(seed), length);
    sws, body := LengthIsRight(|text|, total, length);
    FillAll(status, Mandatory(seed), length);
    var line := LengthText(sws, body);
    JoinParts(status, Mandatory(seed), line);
    var t := text + line + "\r\n";
    assert Close(text + line, length) == t;
    spaces := Spaces(length - |t|);
  }

  lemma {:induction false} JoinParts(first: string, lines: seq<string>, last: string)
    ensures Join([first] + lines + [last]) == first + Join(lines) + last
  {
    assert ([first] + lines + [last])[1..] == lines + [last];
    JoinLast(lines, last);
  }

  lemma {:induction false} JoinLast(lines: seq<string>, last: string)
    ensures Join(lines + [last]) == Join(lines) + last
  {
    if lines != [] {
      assert (lines + [last])[1..] == lines[1..] + [last];
      JoinLast(lines[1..], last);
    } else {
      assert lines + [last] == [last] && [last][1..] == [];
      assert Join([last]) == last + "";
    }
  }

  lemma {:induction false} LengthReads(sws: nat, body: nat)
    requires 1 <= sws <= 2
    ensures IsLine(LengthText(sws, body))
  {
    DecPlain(body);
    hide Dec;
    var line := LengthText(sws, body);
    assert line[..|line| - 2] == "Content-Length:" + Spaces(sws) + Dec(body);
  }

  lemma LengthBody(sws: nat, body: nat, line: string)
    requires line + "\r\n" == LengthText(sws, body)
    ensures line == "Content-Length:" + Spaces(sws) + Dec(body)
  {
    hide Dec, Spaces;
    assert line == (line + "\r\n")[..|line|];
  }

  /** A reader finds the status line, the header fields that a response takes over from the request (section 8.2.6.2 of
      RFC 3261) and Content-Length, whose number is that of the bytes behind the blank line. */
  lemma {:induction false} SipReads(total: int, length: nat, seed: nat) returns (sws: nat)
    requires Roomy(total, length, seed) && length <= total
    ensures 1 <= sws <= 2
    ensures var r := ReadLines(Text(total, length, seed)); var behind := total - (LinesSize(r) + 2);
      && |r| == 7 && "SIP/2.0 " <= r[0] && (forall i :: 0 <= i < 5 ==> FieldName(r[1 + i]) == FIELDS[i])
      && behind >= 0 && r[6] == "Content-Length:" + Spaces(sws) + Dec(behind) && ParseDec(Dec(behind)) == behind
  {
    hide Status, Mandatory, Text, LengthText, ReadLines, Draw, IsLine, FieldName, Join, Dec, Digits;
    var body, spaces;
    sws, body, spaces := TextIsLines(total, length, seed);
    var lines := AllLines(length, seed, sws, body);
    MandatoryReads(seed);
    LengthReads(sws, body);
    StatusReads(Draw(seed, 0), 0, length);
    assert forall i :: 0 <= i < 5 ==> lines[1 + i] == Mandatory(seed)[i];
    LinesRead(lines, spaces);
    var r := ReadLines(Text(total, length, seed));
    SizeIs(r, lines);
    ParseDecOfDec(body);
    assert r[6] + "\r\n" == lines[6] == LengthText(sws, body);
    LengthBody(sws, body, r[6]);
    forall i | 0 <= i < 5
      ensures FieldName(r[1 + i]) == FIELDS[i]
    {
      assert Field(lines[1 + i], FIELDS[i]);
      assert lines[1 + i][..|lines[1 + i]| - 2] == r[1 + i];
    }
  }

  // ---- the code ----

  function Byte(c: char): byte {
    c as int % 256
  }

  function Bytes(s: string): (m: seq<byte>)
    ensures |m| == |s|
  {
    seq(|s|, i requires 0 <= i < |s| => Byte(s[i]))
  }

  lemma BytesConcat(a: string, b: string)
    ensures Bytes(a + b) == Bytes(a) + Bytes(b)
  {
  }

  /** memcpy of a text */
  method PutText(dst: array<byte>, at: nat, src: string)
    requires at + |src| <= dst.Length
    modifies dst
    ensures dst[..] == Written(old(dst[..]), at, Bytes(src))
  {
    for i := 0 to |src|
      invariant forall k :: 0 <= k < dst.Length ==> dst[k] == if at <= k < at + i then Byte(src[k - at]) else old(dst[k])
    {
      dst[at + i] := src[i] as int % 256;
    }
  }

  /** The loop that writes spaces */
  method PutSpaces(dst: array<byte>, at: nat, n: nat)
    requires at + n <= dst.Length
    modifies dst
    ensures dst[..] == Written(old(dst[..]), at, Bytes(Spaces(n)))
  {
    for i := 0 to n
      invariant forall k :: 0 <= k < dst.Length ==> dst[k] == if at <= k < at + i then 0x20 else old(dst[k])
    {
      dst[at + i] := 0x20;
    }
  }

  /** buf holds text at its front and is otherwise as it was. */
  ghost predicate Holds(buf: array<byte>, was: seq<byte>, text: string)
    reads buf
  {
    |text| <= |was| && buf[..] == Bytes(text) + was[|text|..]
  }

  /** sip_putline; text is what p[..pos] holds */
  method PutLine(p: array<byte>, length: nat, line: string, text: string, ghost was: seq<byte>) returns (ok: bool, text': string)
    requires Holds(p, was, text) && length <= p.Length
    modifies p
    ensures ok == Room(text, line, length) && text' == (if ok then text + line else text) && Holds(p, was, text')
  {
    ok, text' := false, text;
    if |text| + |line| + 2 <= length {
      ok := true;
      PutText(p, |text|, line);
      text' := text + line;
      BytesConcat(text, line);
    }
  }

  method MakeStatus(i: nat) returns (line: string)
    ensures line == StatusLine(i)
  {
    var status := ["100 Trying", "180 Ringing", "200 OK"];
    line := "SIP/2.0 " + status[i % 3] + "\r\n";
  }

  /** The draws and the lines for them, and the number of the status line */
  method MakeLines(seed: nat) returns (first: nat, lines: seq<string>)
    ensures first == Draw(seed, 0) && lines == Mandatory(seed)
  {
    assert Draw(seed, 0) == seed;
    hide Draw, Hex, Dec;
    var hosts := ["sip.example.com", "pbx.example.net", "voip.example.org"];
    var methods := ["INVITE", "OPTIONS", "REGISTER"];
    first := seed;
    var hostDraw := Step(seed, seed, 0);
    var methodDraw := Step(hostDraw, seed, 1);
    var branch := Step(methodDraw, seed, 2);
    var fromTag := Step(branch, seed, 3);
    var toTag := Step(fromTag, seed, 4);
    var callId := Step(toTag, seed, 5);
    var state := Step(callId, seed, 6);
    var host, kind := hosts[hostDraw % 3], methods[methodDraw % 3];
    assert host == Host(hostDraw) && kind == Method(methodDraw);
    hide Host, Method;
    lines := ["Via: SIP/2.0/UDP " + host + ":5060;branch=z9hG4bK" + Hex(branch, 8) + ";rport" + "\r\n",
              "From: <sip:caller@" + host + ">;tag=" + Hex(fromTag, 8) + "\r\n",
              "To: <sip:callee@" + host + ">;tag=" + Hex(toTag, 8) + "\r\n",
              "Call-ID: " + Hex(callId, 8) + "@" + host + "\r\n",
              "CSeq: " + Dec(1 + state % 100000) + " " + kind + "\r\n"];
  }

  /** The status line: try each rotation until one fits */
  method PutStatus(p: array<byte>, length: nat, i: nat, ghost was: seq<byte>) returns (text: string)
    requires p[..] == was && length <= p.Length
    modifies p
    ensures text == Status(i, 0, length) && Holds(p, was, text) && |text| <= length
  {
    hide StatusLine;
    var k := 0;
    text := "";
    var done := false;
    assert Holds(p, was, "");
    while k < 3 && !done
      invariant 0 <= k <= 3 && Holds(p, was, text) && |text| <= length
      invariant if done then text == Status(i, 0, length) else text == "" && Status(i, k, length) == Status(i, 0, length)
    {
      var line := MakeStatus(i + k);
      done, text := PutLine(p, length, line, text, was);
      assert "" + StatusLine(i + k) == StatusLine(i + k);
      k := k + 1;
    }
  }

  /** The lines behind it, until one does not fit */
  method PutLines(p: array<byte>, length: nat, lines: seq<string>, text: string, ghost was: seq<byte>) returns (text': string, all: bool)
    requires Holds(p, was, text) && |text| <= length <= p.Length
    modifies p
    ensures (text', all) == Fill(text, lines, length) && Holds(p, was, text') && |text'| <= length
  {
    text', all := text, true;
    var k := 0;
    while k < |lines| && all
      invariant 0 <= k <= |lines| && Holds(p, was, text') && |text'| <= length
      invariant if all then Fill(text', lines[k..], length) == Fill(text, lines, length) else (text', false) == Fill(text, lines, length)
    {
      all, text' := PutLine(p, length, lines[k], text', was);
      assert lines[k..][1..] == lines[k + 1..];
      k := k + 1;
    }
  }

  /** The search for the number of digits */
  method FindDigits(pos: nat, total: int, length: nat, sws: nat) returns (d: nat)
    ensures d == Search(pos, total, length, sws, 1)
  {
    hide Digits;
    var most := DecimalDigits(total);
    var digits := 1;
    while digits <= most
      invariant digits >= 1 && Search(pos, total, length, sws, digits) == Search(pos, total, length, sws, 1)
      decreases if digits <= most then most - digits + 1 else 0
    {
      var end := pos + 19 + sws + digits;
      if end > length {
        return 0;
      }
      var n := DecimalDigits(total - end);
      if n == digits {
        return digits;
      }
      digits := digits + 1;
    }
    return 0;
  }

  lemma LengthTextIs(sws: nat, body: nat)
    requires 1 <= sws <= 2
    ensures LengthText(sws, body) == (if sws == 1 then "Content-Length: " else "Content-Length:  ") + Dec(body) + "\r\n"
  {
    hide Dec;
    assert Spaces(1) == " " && Spaces(2) == "  ";
  }

  /** The Content-Length line, for one space or two */
  method PutLength(p: array<byte>, length: nat, total: int, text: string, ghost was: seq<byte>) returns (text': string)
    requires Holds(p, was, text) && |text| <= length <= p.Length && length <= total
    modifies p
    ensures text' == text + LengthLine(|text|, total, length) && Holds(p, was, text') && |text'| <= length
  {
    hide Search, Dec;
    text' := text;
    assert text + "" == text;
    var d := FindDigits(|text|, total, length, 1);
    var sws := 1;
    if d == 0 {
      d := FindDigits(|text|, total, length, 2);
      sws := 2;
    }
    if d > 0 {
      SearchEnds(|text|, total, length, sws, 1);
      var body := total - (|text| + 19 + sws + d);
      var line := if sws == 1 then "Content-Length: " + Dec(body) + "\r\n" else "Content-Length:  " + Dec(body) + "\r\n";
      LengthTextIs(sws, body);
      var _, t := PutLine(p, length, line, text, was);
      text' := t;
    }
  }

  /** The blank line, if it fits, and spaces up to the end */
  method PutEnd(buf: array<byte>, padding: nat, text: string, ghost was: seq<byte>)
    requires Holds(buf, was, text) && |text| <= padding <= buf.Length
    modifies buf
    ensures var t := Close(text, padding); |t| <= padding && buf[..] == Bytes(t + Spaces(padding - |t|)) + was[padding..]
  {
    var t := text;
    if |text| + 2 <= padding {
      PutText(buf, |text|, "\r\n");
      BytesConcat(text, "\r\n");
      t := text + "\r\n";
    }
    assert Holds(buf, was, t) && t == Close(text, padding);
    hide Close, Bytes;
    PutSpaces(buf, |t|, padding - |t|);
    BytesConcat(t, Spaces(padding - |t|));
  }

  /** write_sip: writes all of the padding and nothing behind it */
  method WriteSip(buf: array<byte>, total: int, padding: nat, seed: nat)
    requires padding <= buf.Length && padding <= total
    modifies buf
    ensures buf[..] == Bytes(Text(total, padding, seed)) + old(buf[padding..])
  {
    ghost var was := buf[..];
    assert was[padding..] == buf[padding..];
    hide Status, Fill, Mandatory, LengthLine, Draw, Fragment, Close, Spaces, Holds, Bytes;
    var first, lines := MakeLines(seed);
    var text := PutStatus(buf, padding, first, was);
    if text == "" {
      PutFragment(buf, padding, was);
      return;
    }
    var all;
    text, all := PutLines(buf, padding, lines, text, was);
    if all {
      text := PutLength(buf, padding, total, text, was);
    }
    PutEnd(buf, padding, text, was);
  }

  method PutFragment(buf: array<byte>, padding: nat, ghost was: seq<byte>)
    requires Holds(buf, was, "") && padding <= buf.Length
    modifies buf
    ensures buf[..] == Bytes(Fragment(padding)) + was[padding..]
  {
    assert buf[..] == was;
    var frag := "SIP/2.0 100 Trying\r\n";
    assert frag == Frag();
    hide Frag, Spaces, Written, Bytes;
    var take := if |frag| > padding then padding else |frag|;
    PutText(buf, 0, frag[..take]);
    PutSpaces(buf, take, padding - take);
    WrittenOn(was, 0, Bytes(Frag()[..take]), Bytes(Spaces(padding - take)));
    ghost var t := Frag()[..take] + Spaces(padding - take);
    BytesConcat(Frag()[..take], Spaces(padding - take));
    FragmentWritten(was, t, padding);
    if padding >= 2 {
      PutText(buf, padding - 2, "\r\n");
    }
  }

  lemma FragmentWritten(was: seq<byte>, t: string, n: nat)
    requires |t| == n <= |was|
    ensures Written(was, 0, Bytes(t)) == Bytes(t) + was[n..]
    ensures n >= 2 ==> Written(Written(was, 0, Bytes(t)), n - 2, Bytes("\r\n")) == Bytes(t[..n - 2] + "\r\n") + was[n..]
  {
  }
}
