/** The text protocol between the clients and the relay: `init <id>` from
    the relay and `move <r1> <c1> <r2> <c2>` between peers, each followed by a
    newline, and how the client's onmessage handler reads them back with
    trim, split(' ') and parseInt. */
module Wire {
  import opened Board

  // ---------------------------------------------------------------------
  // String.prototype.trim and split(' ')

  /** The characters trim removes: white space and line terminators. */
  predicate IsSpace(c: char) {
    c == ' ' || c == '\t' || c == '\n' || c == '\r' || c == '\U{000B}' || c == '\U{000C}'
    || c == '\U{00A0}' || c == '\U{1680}' || ('\U{2000}' <= c <= '\U{200A}')
    || c == '\U{2028}' || c == '\U{2029}' || c == '\U{202F}' || c == '\U{205F}'
    || c == '\U{3000}' || c == '\U{FEFF}'
  }

  function TrimStart(s: string): (r: string)
    ensures |r| <= |s| && r == s[|s| - |r|..]
    ensures |r| > 0 ==> !IsSpace(r[0])
    ensures forall i :: 0 <= i < |s| - |r| ==> IsSpace(s[i])
  {
    if |s| > 0 && IsSpace(s[0]) then TrimStart(s[1..]) else s
  }

  function TrimEnd(s: string): (r: string)
    ensures |r| <= |s| && r == s[..|r|]
    ensures |r| > 0 ==> !IsSpace(r[|r| - 1])
    ensures forall i :: |r| <= i < |s| ==> IsSpace(s[i])
  {
    if |s| > 0 && IsSpace(s[|s| - 1]) then TrimEnd(s[..|s| - 1]) else s
  }

  function Trim(s: string): string {
    TrimEnd(TrimStart(s))
  }

  /** Position of the first space. */
  function IndexOfSpace(s: string): (i: nat)
    requires ' ' in s
    ensures i < |s| && s[i] == ' ' && ' ' !in s[..i]
  {
    if s[0] == ' ' then 0
    else
      assert s == [s[0]] + s[1..];
      var i := 1 + IndexOfSpace(s[1..]);
      assert s[..i] == [s[0]] + s[1..][..i - 1];
      i
  }

  /** split(' '): the pieces between single spaces, empty pieces included;
      a string without a space is one piece. */
  function Split(s: string): (parts: seq<string>)
    ensures |parts| >= 1
    ensures forall k :: 0 <= k < |parts| ==> ' ' !in parts[k]
    decreases |s|
  {
    if ' ' !in s then [s]
    else
      var i := IndexOfSpace(s);
      [s[..i]] + Split(s[i + 1..])
  }

  /** The pieces joined by single spaces. */
  function Join(parts: seq<string>): string
    requires |parts| >= 1
  {
    if |parts| == 1 then parts[0] else parts[0] + " " + Join(parts[1..])
  }

  /** Splitting undoes joining when no piece contains a space. */
  lemma {:induction false} SplitJoin(parts: seq<string>)
    requires |parts| >= 1
    requires forall k :: 0 <= k < |parts| ==> ' ' !in parts[k]
    ensures Split(Join(parts)) == parts
  {
    if |parts| > 1 {
      var s := Join(parts);
      var head := parts[0];
      assert s == head + " " + Join(parts[1..]);
      assert s[|head|] == ' ';
      assert s[..|head|] == head;
      assert ' ' in s;
      var i := IndexOfSpace(s);
      assert s[i + 1..] == Join(parts[1..]);
      SplitJoin(parts[1..]);
    }
  }

  /** The first piece of a split is where the string starts. */
  lemma SplitHead(s: string)
    ensures |Split(s)[0]| <= |s| && Split(s)[0] == s[..|Split(s)[0]|]
  {
  }

  // ---------------------------------------------------------------------
  // Integers: template literals and parseInt

  function DigitChar(d: int): char
    requires 0 <= d < 10
  {
    "0123456789"[d]
  }

  predicate IsDigit(c: char) {
    '0' <= c <= '9'
  }

  /** A non-negative integer in decimal, as a template literal shows it. */
  function ShowNat(n: nat): (s: string)
    ensures |s| >= 1
    ensures forall k :: 0 <= k < |s| ==> IsDigit(s[k])
  {
    if n < 10 then [DigitChar(n)] else ShowNat(n / 10) + [DigitChar(n % 10)]
  }

  /** The value of a digit in radix 10 or 16 (letters either case), or -1. */
  function DigitValue(c: char, radix: nat): int {
    var v :=
      if '0' <= c <= '9' then c as int - '0' as int
      else if 'a' <= c <= 'z' then c as int - 'a' as int + 10
      else if 'A' <= c <= 'Z' then c as int - 'A' as int + 10
      else -1;
    if v < radix then v else -1
  }

  /** The longest prefix of s made of digits of the radix. */
  function DigitPrefix(s: string, radix: nat): (p: string)
    ensures |p| <= |s| && p == s[..|p|]
    ensures forall k :: 0 <= k < |p| ==> DigitValue(p[k], radix) >= 0
    ensures |p| < |s| ==> DigitValue(s[|p|], radix) < 0
  {
    if |s| > 0 && DigitValue(s[0], radix) >= 0 then [s[0]] + DigitPrefix(s[1..], radix) else []
  }

  /** The value of a string of digits, most significant first. */
  function DigitsValue(ds: string, radix: nat): int
    requires forall k :: 0 <= k < |ds| ==> DigitValue(ds[k], radix) >= 0
  {
    if |ds| == 0 then 0 else DigitsValue(ds[..|ds| - 1], radix) * radix + DigitValue(ds[|ds| - 1], radix)
  }

  /** parseInt(s) with no radix: leading white space skipped, an optional
      sign, then the unsigned part; None stands for NaN. */
  function ParseInt(s: string): Option<int> {
    var t := TrimStart(s);
    if |t| > 0 && t[0] == '-' then
      (match ParseDigits(t[1..]) case None => None case Some(v) => Some(-v))
    else if |t| > 0 && t[0] == '+' then ParseDigits(t[1..])
    else ParseDigits(t)
  }

  /** The unsigned part of parseInt: a "0x" or "0X" prefix selects
      hexadecimal, then the longest run of digits is read; no digit at all
      gives None. */
  function ParseDigits(u: string): Option<int> {
    var hex := |u| >= 2 && u[0] == '0' && (u[1] == 'x' || u[1] == 'X');
    var radix := if hex then 16 else 10;
    var ds := DigitPrefix(if hex then u[2..] else u, radix);
    if |ds| == 0 then None else Some(DigitsValue(ds, radix))
  }

  /** An integer as a template literal shows it: a minus sign before a
      negative one. */
  function ShowInt(i: int): (s: string)
    ensures |s| >= 1 && ' ' !in s && !IsSpace(s[0]) && !IsSpace(s[|s| - 1])
  {
    if i < 0 then "-" + ShowNat(-i) else ShowNat(i)
  }

  /** Reading back what ShowNat wrote gives the number. */
  lemma {:induction false} ShowNatValue(n: nat)
    ensures DigitsValue(ShowNat(n), 10) == n
  {
    var s := ShowNat(n);
    if n < 10 {
      DigitCharValue(n);
      assert s[..0] == [];
    } else {
      var q, r := n / 10, n % 10;
      ShowNatValue(q);
      DigitCharValue(r);
      assert s[..|s| - 1] == ShowNat(q);
      assert s[|s| - 1] == DigitChar(r);
      assert DigitsValue(s, 10) == DigitsValue(ShowNat(q), 10) * 10 + r;
    }
  }

  lemma DigitCharValue(d: int)
    requires 0 <= d < 10
    ensures DigitValue(DigitChar(d), 10) == d
  {
  }

  lemma DigitPrefixAll(s: string, radix: nat)
    requires forall k :: 0 <= k < |s| ==> DigitValue(s[k], radix) >= 0
    ensures DigitPrefix(s, radix) == s
  {
  }

  /** The unsigned part of parseInt reads ShowNat(n) back as n. */
  lemma ParseDigitsShowNat(n: nat)
    ensures ParseDigits(ShowNat(n)) == Some(n)
  {
    var s := ShowNat(n);
    assert forall k :: 0 <= k < |s| ==> DigitValue(s[k], 10) >= 0;
    DigitPrefixAll(s, 10);
    ShowNatValue(n);
    assert !(|s| >= 2 && s[0] == '0' && (s[1] == 'x' || s[1] == 'X'));
  }

  lemma TrimStartVisible(t: string)
    requires |t| > 0 && !IsSpace(t[0])
    ensures TrimStart(t) == t
  {
  }

  /** A decimal digit is neither white space nor a sign. */
  lemma DigitIsVisible(c: char)
    requires IsDigit(c)
    ensures !IsSpace(c) && c != '-' && c != '+'
  {
  }

  /** parseInt reads a minus sign followed by a number as its negation. */
  lemma ParseIntMinus(s: string, v: int)
    requires ParseDigits(s) == Some(v)
    ensures ParseInt("-" + s) == Some(-v)
  {
    var t := "-" + s;
    TrimStartVisible(t);
    assert t[1..] == s;
  }

  /** parseInt reads a number written by a template literal back unchanged. */
  lemma ParseShowNat(n: nat)
    ensures ParseInt(ShowNat(n)) == Some(n)
  {
    var s := ShowNat(n);
    ParseDigitsShowNat(n);
    DigitIsVisible(s[0]);
    TrimStartVisible(s);
  }

  /** parseInt reads any integer written by a template literal back
      unchanged, negative ones included. */
  lemma ParseShowInt(i: int)
    ensures ParseInt(ShowInt(i)) == Some(i)
  {
    if i < 0 {
      ParseDigitsShowNat(-i);
      ParseIntMinus(ShowNat(-i), -i);
    } else {
      ParseShowNat(i);
    }
  }

  // ---------------------------------------------------------------------
  // Messages

  /** What onmessage makes of a line: an identity, a move (each coordinate
      None when parseInt gives NaN), or nothing it acts on. */
  datatype Message =
    | InitNotice(id: Option<int>)
    | MoveNotice(fromRow: Option<int>, fromCol: Option<int>, toRow: Option<int>, toCol: Option<int>)
    | Ignored

  /** parseInt of partes[k]; a missing part is `undefined`, which parses to
      NaN. */
  function PartInt(parts: seq<string>, k: nat): Option<int> {
    if k < |parts| then ParseInt(parts[k]) else None
  }

  /** socket.onmessage: trim, split on single spaces, and dispatch on the
      first word. */
  function ParseMessage(text: string): Message {
    var parts := Split(Trim(text));
    if parts[0] == "init" then InitNotice(PartInt(parts, 1))
    else if parts[0] == "move" then
      MoveNotice(PartInt(parts, 1), PartInt(parts, 2), PartInt(parts, 3), PartInt(parts, 4))
    else Ignored
  }

  /** The line handleMove sends after a move it made. */
  function MoveText(from: Pos, to: Pos): string {
    Join(["move", ShowInt(from.row), ShowInt(from.col), ShowInt(to.row), ShowInt(to.col)]) + "\n"
  }

  /** The line the relay sends to an admitted connection. */
  function InitText(id: nat): string {
    Join(["init", ShowNat(id)]) + "\n"
  }

  /** Trimming a line that ends in one newline and otherwise starts and
      ends with visible characters leaves the line without its newline. */
  lemma TrimLine(s: string)
    requires |s| > 0 && !IsSpace(s[0]) && !IsSpace(s[|s| - 1])
    ensures Trim(s + "\n") == s
  {
    assert (s + "\n")[..|s|] == s;
  }

  lemma ShowNatNoSpace(n: nat)
    ensures ' ' !in ShowNat(n)
  {
  }

  /** Reading back a move line gives the same four coordinates. */
  lemma MoveRoundTrip(from: Pos, to: Pos)
    ensures ParseMessage(MoveText(from, to))
         == MoveNotice(Some(from.row), Some(from.col), Some(to.row), Some(to.col))
  {
    var parts := ["move", ShowInt(from.row), ShowInt(from.col), ShowInt(to.row), ShowInt(to.col)];
    SplitJoin(parts);
    var line := Join(parts);
    assert line == "move" + " " + Join(parts[1..]);
    JoinEndsWith(parts);
    TrimLine(line);
    ParseShowInt(from.row); ParseShowInt(from.col);
    ParseShowInt(to.row); ParseShowInt(to.col);
  }

  /** Reading back an init line gives the same identity. */
  lemma InitRoundTrip(id: nat)
    ensures ParseMessage(InitText(id)) == InitNotice(Some(id))
  {
    var parts := ["init", ShowNat(id)];
    ShowNatNoSpace(id);
    SplitJoin(parts);
    var line := Join(parts);
    assert line == "init" + " " + ShowNat(id);
    TrimLine(line);
    ParseShowNat(id);
  }

  /** The last character of a join is the last character of its last piece. */
  lemma {:induction false} JoinEndsWith(parts: seq<string>)
    requires |parts| >= 1 && |parts[|parts| - 1]| > 0
    ensures |Join(parts)| > 0
    ensures Join(parts)[|Join(parts)| - 1] == parts[|parts| - 1][|parts[|parts| - 1]| - 1]
  {
    if |parts| > 1 {
      JoinEndsWith(parts[1..]);
    }
  }

  /** A line whose first visible character is '{' (the relay's JSON error
      notice) is neither an init nor a move. */
  lemma BraceIgnored(text: string)
    requires |Trim(text)| > 0 && Trim(text)[0] == '{'
    ensures ParseMessage(text) == Ignored
  {
    SplitHead(Trim(text));
    var head := Split(Trim(text))[0];
    if |head| > 0 {
      assert head[0] == '{';
    }
  }
}
