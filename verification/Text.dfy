/** The string operations the controllers rely on, over ASCII text:
    case folding, trimming, splitting and joining, decimal numbers. */
module Text {
  import opened Wrappers

  // ----- Case and white space -----

  function LowerChar(c: char): char {
    if 'A' <= c <= 'Z' then c + ('a' - 'A') else c
  }

  function ToLower(s: string): (r: string)
    ensures |r| == |s|
    ensures forall i :: 0 <= i < |s| ==> r[i] == LowerChar(s[i])
  {
    seq(|s|, i requires 0 <= i < |s| => LowerChar(s[i]))
  }

  predicate EqualFold(a: string, b: string) {
    ToLower(a) == ToLower(b)
  }

  predicate IsSpace(c: char) {
    c == ' ' || '\t' <= c <= '\r'
  }

  function TrimLeft(s: string): string {
    if s != "" && IsSpace(s[0]) then TrimLeft(s[1..]) else s
  }

  function TrimRight(s: string): string {
    if s != "" && IsSpace(s[|s| - 1]) then TrimRight(s[..|s| - 1]) else s
  }

  function TrimSpace(s: string): string {
    TrimRight(TrimLeft(s))
  }

  lemma LowerIdempotent(s: string)
    ensures ToLower(ToLower(s)) == ToLower(s)
  {
  }

  lemma LowerAppend(a: string, b: string)
    ensures ToLower(a + b) == ToLower(a) + ToLower(b)
  {
  }

  lemma {:induction false} LowerTrimLeft(s: string)
    ensures ToLower(TrimLeft(s)) == TrimLeft(ToLower(s))
  {
    if s != "" && IsSpace(s[0]) {
      LowerTrimLeft(s[1..]);
      assert ToLower(s)[1..] == ToLower(s[1..]);
    }
  }

  lemma {:induction false} LowerTrimRight(s: string)
    ensures ToLower(TrimRight(s)) == TrimRight(ToLower(s))
  {
    if s != "" && IsSpace(s[|s| - 1]) {
      LowerTrimRight(s[..|s| - 1]);
      assert ToLower(s)[..|s| - 1] == ToLower(s[..|s| - 1]);
    }
  }

  lemma LowerTrim(s: string)
    ensures ToLower(TrimSpace(s)) == TrimSpace(ToLower(s))
  {
    LowerTrimLeft(s);
    LowerTrimRight(TrimLeft(s));
  }

  lemma {:induction false} TrimRightIdempotent(s: string)
    ensures TrimRight(TrimRight(s)) == TrimRight(s)
  {
    if s != "" && IsSpace(s[|s| - 1]) {
      TrimRightIdempotent(s[..|s| - 1]);
    }
  }

  /** Trimming from the right never uncovers a leading blank. */
  lemma {:induction false} TrimRightKeepsHead(s: string)
    requires TrimLeft(s) == s
    ensures TrimLeft(TrimRight(s)) == TrimRight(s)
  {
    if s != "" && IsSpace(s[|s| - 1]) {
      var front := s[..|s| - 1];
      assert !IsSpace(s[0]) by {
        if IsSpace(s[0]) {
          TrimLeftShrinks(s[1..]);
        }
      }
      TrimRightKeepsHead(front);
    }
  }

  lemma {:induction false} TrimLeftShrinks(s: string)
    ensures |TrimLeft(s)| <= |s|
  {
    if s != "" && IsSpace(s[0]) {
      TrimLeftShrinks(s[1..]);
    }
  }

  /** Trimming one side first makes no difference. */
  lemma TrimAbsorbsLeft(s: string)
    ensures TrimSpace(TrimLeft(s)) == TrimSpace(s)
  {
  }

  lemma {:induction false} TrimSidesCommute(s: string)
    ensures TrimLeft(TrimRight(s)) == TrimRight(TrimLeft(s))
  {
    if s != "" && IsSpace(s[0]) {
      TrimSidesCommute(s[1..]);
      TrimRightCons(s);
    } else if s != "" {
      TrimRightKeepsHead(s);
    }
  }

  /** A leading blank is trimmed from the left before or after the right end is. */
  lemma {:induction false} TrimRightCons(s: string)
    requires s != "" && IsSpace(s[0])
    ensures TrimLeft(TrimRight(s)) == TrimLeft(TrimRight(s[1..]))
  {
    if |s| > 1 && IsSpace(s[|s| - 1]) {
      var front := s[..|s| - 1];
      TrimRightCons(front);
      assert front[1..] == s[1..][..|s[1..]| - 1];
    } else if |s| > 1 {
      assert TrimRight(s[1..]) == s[1..];
    } else {
      assert s[..0] == "" && s[1..] == "";
    }
  }

  lemma TrimAbsorbsRight(s: string)
    ensures TrimSpace(TrimRight(s)) == TrimSpace(s)
  {
    TrimSidesCommute(s);
    TrimRightIdempotent(TrimLeft(s));
  }

  /** Only blanks are trimmed away. */
  lemma {:induction false} TrimLeftKeeps(s: string, c: char)
    requires c in s && !IsSpace(c)
    ensures c in TrimLeft(s)
  {
    if IsSpace(s[0]) {
      assert s == [s[0]] + s[1..];
      TrimLeftKeeps(s[1..], c);
    }
  }

  lemma {:induction false} TrimRightKeeps(s: string, c: char)
    requires c in s && !IsSpace(c)
    ensures c in TrimRight(s)
  {
    if IsSpace(s[|s| - 1]) {
      assert s == s[..|s| - 1] + [s[|s| - 1]];
      TrimRightKeeps(s[..|s| - 1], c);
    }
  }

  lemma {:induction false} TrimLeftLacks(s: string, c: char)
    requires c !in s
    ensures c !in TrimLeft(s)
  {
    if s != "" && IsSpace(s[0]) {
      TrimLeftLacks(s[1..], c);
    }
  }

  lemma {:induction false} TrimRightLacks(s: string, c: char)
    requires c !in s
    ensures c !in TrimRight(s)
  {
    if s != "" && IsSpace(s[|s| - 1]) {
      TrimRightLacks(s[..|s| - 1], c);
    }
  }

  /** Text around a non-blank character is trimmed on its outer side only. */
  lemma {:induction false} TrimLeftInfix(a: string, c: char, b: string)
    requires !IsSpace(c)
    ensures TrimLeft(a + [c] + b) == TrimLeft(a) + [c] + b
  {
    if a == "" {
      assert a + [c] + b == [c] + b;
      assert TrimLeft(a) + [c] + b == [c] + b;
    } else if IsSpace(a[0]) {
      assert (a + [c] + b)[1..] == a[1..] + [c] + b;
      TrimLeftInfix(a[1..], c, b);
    } else {
      assert (a + [c] + b)[0] == a[0];
    }
  }

  lemma {:induction false} TrimRightInfix(a: string, c: char, b: string)
    requires !IsSpace(c)
    ensures TrimRight(a + [c] + b) == a + [c] + TrimRight(b)
  {
    var whole := a + [c] + b;
    if b == "" {
      assert whole == a + [c];
      assert whole[|whole| - 1] == c;
      assert a + [c] + TrimRight(b) == a + [c];
    } else if IsSpace(b[|b| - 1]) {
      assert whole[..|whole| - 1] == a + [c] + b[..|b| - 1];
      TrimRightInfix(a, c, b[..|b| - 1]);
    } else {
      assert whole[|whole| - 1] == b[|b| - 1];
    }
  }

  lemma TrimInfix(a: string, c: char, b: string)
    requires !IsSpace(c)
    ensures TrimSpace(a + [c] + b) == TrimLeft(a) + [c] + TrimRight(b)
  {
    TrimLeftInfix(a, c, b);
    TrimRightInfix(TrimLeft(a), c, b);
  }

  // ----- What folding and trimming mean -----

  const UPPER := "ABCDEFGHIJKLMNOPQRSTUVWXYZ"
  const LOWER := "abcdefghijklmnopqrstuvwxyz"

  lemma Alphabets(i: nat)
    requires i < 26
    ensures UPPER[i] == 'A' + i as char && LOWER[i] == 'a' + i as char
  {
  }

  /** Exactly the capital letters are changed, each to its small one. */
  lemma LowerCharExact(c: char)
    ensures LowerChar(c) != c ==> exists i :: 0 <= i < 26 && UPPER[i] == c
    ensures forall i :: 0 <= i < 26 && UPPER[i] == c ==> LowerChar(c) == LOWER[i]
  {
    if 'A' <= c <= 'Z' {
      Alphabets((c - 'A') as int);
    }
    forall i | 0 <= i < 26 && UPPER[i] == c ensures LowerChar(c) == LOWER[i] {
      Alphabets(i);
    }
  }

  /** Space, tab, line feed, vertical tab, form feed, carriage return. */
  const BLANKS := {' ', '\t', '\n', '\U{0B}', '\U{0C}', '\r'}

  predicate AllBlank(s: string) {
    forall i :: 0 <= i < |s| ==> s[i] in BLANKS
  }

  predicate Bare(s: string) {
    s == "" || (s[0] !in BLANKS && s[|s| - 1] !in BLANKS)
  }

  lemma {:induction false} TrimLeftStrips(a: string, s: string)
    requires AllBlank(a) && (s == "" || s[0] !in BLANKS)
    ensures TrimLeft(a + s) == s
  {
    if a == "" {
      assert a + s == s;
    } else {
      assert a[0] in BLANKS;
      assert (a + s)[1..] == a[1..] + s;
      TrimLeftStrips(a[1..], s);
    }
  }

  lemma {:induction false} TrimRightStrips(s: string, b: string)
    requires AllBlank(b) && (s == "" || s[|s| - 1] !in BLANKS)
    ensures TrimRight(s + b) == s
  {
    if b == "" {
      assert s + b == s;
    } else {
      assert b[|b| - 1] in BLANKS;
      assert (s + b)[..|s + b| - 1] == s + b[..|b| - 1];
      TrimRightStrips(s, b[..|b| - 1]);
    }
  }

  /** Trimming takes off exactly the blanks around a text. */
  lemma TrimSpaceStrips(a: string, core: string, b: string)
    requires AllBlank(a) && AllBlank(b) && Bare(core)
    ensures TrimSpace(a + core + b) == core
  {
    assert a + core + b == a + (core + b);
    if core == "" {
      assert a + core + b == (a + b) + "";
      TrimLeftStrips(a + b, "");
    } else {
      TrimLeftStrips(a, core + b);
      TrimRightStrips(core, b);
    }
  }

  // ----- Splitting and joining -----

  /** One more character in front: it starts a new part or extends the first one. */
  function Prepend(c: char, parts: seq<string>, sep: char): seq<string>
    requires parts != []
  {
    if c == sep then [""] + parts else [[c] + parts[0]] + parts[1..]
  }

  function Split(s: string, sep: char): (parts: seq<string>)
    ensures |parts| >= 1
  {
    if s == "" then [""] else Prepend(s[0], Split(s[1..], sep), sep)
  }

  function Join(parts: seq<string>, sep: char): string {
    if |parts| == 0 then ""
    else if |parts| == 1 then parts[0]
    else parts[0] + [sep] + Join(parts[1..], sep)
  }

  lemma {:induction false} SplitAppend(a: string, b: string, sep: char)
    ensures Split(a + [sep] + b, sep) == Split(a, sep) + Split(b, sep)
  {
    var whole := a + [sep] + b;
    if a == "" {
      assert whole[1..] == b;
    } else {
      assert whole[1..] == a[1..] + [sep] + b;
      SplitAppend(a[1..], b, sep);
    }
  }

  lemma {:induction false} SplitWhole(s: string, sep: char)
    requires sep !in s
    ensures Split(s, sep) == [s]
  {
    if s != "" {
      SplitWhole(s[1..], sep);
      assert s == [s[0]] + s[1..];
    }
  }

  lemma {:induction false} SplitMore(s: string, sep: char)
    requires sep in s
    ensures |Split(s, sep)| >= 2
  {
    if s[0] != sep {
      assert s == [s[0]] + s[1..];
      SplitMore(s[1..], sep);
    }
  }

  /** Splitting undoes joining when no part contains the separator. */
  lemma {:induction false} SplitJoin(parts: seq<string>, sep: char)
    requires |parts| >= 1
    requires forall p :: p in parts ==> sep !in p
    ensures Split(Join(parts, sep), sep) == parts
  {
    SplitWhole(parts[0], sep);
    if |parts| == 1 {
      assert parts == [parts[0]];
    } else {
      SplitJoin(parts[1..], sep);
      SplitAppend(parts[0], Join(parts[1..], sep), sep);
      assert parts == [parts[0]] + parts[1..];
    }
  }

  /** Joining undoes splitting for every text. */
  lemma {:induction false} JoinSplit(s: string, sep: char)
    ensures Join(Split(s, sep), sep) == s
  {
    if s != "" {
      var rest := Split(s[1..], sep);
      JoinSplit(s[1..], sep);
      assert s == [s[0]] + s[1..];
      if s[0] == sep {
        assert ([""] + rest)[1..] == rest;
        assert "" + [sep] + Join(rest, sep) == s;
      } else {
        var parts := [[s[0]] + rest[0]] + rest[1..];
        assert parts[1..] == rest[1..];
        if |rest| > 1 {
          assert [s[0]] + rest[0] + [sep] + Join(rest[1..], sep)
              == [s[0]] + (rest[0] + [sep] + Join(rest[1..], sep));
        }
      }
    }
  }

  lemma LowerPrepend(c: char, parts: seq<string>, lower: seq<string>, sep: char)
    requires LowerChar(c) == sep <==> c == sep
    requires parts != [] && |lower| == |parts|
    requires forall i :: 0 <= i < |parts| ==> lower[i] == ToLower(parts[i])
    ensures |Prepend(LowerChar(c), lower, sep)| == |Prepend(c, parts, sep)|
    ensures forall i :: 0 <= i < |Prepend(c, parts, sep)| ==>
              Prepend(LowerChar(c), lower, sep)[i] == ToLower(Prepend(c, parts, sep)[i])
  {
    assert ToLower([c] + parts[0]) == [LowerChar(c)] + ToLower(parts[0]);
    assert ToLower("") == "";
  }

  /** Lower-casing commutes with splitting at a character that has no case. */
  lemma {:induction false} SplitLower(s: string, sep: char)
    requires forall c: char :: LowerChar(c) == sep <==> c == sep
    ensures |Split(ToLower(s), sep)| == |Split(s, sep)|
    ensures forall i :: 0 <= i < |Split(s, sep)| ==> Split(ToLower(s), sep)[i] == ToLower(Split(s, sep)[i])
  {
    if s == "" {
      assert ToLower("") == "";
    } else {
      SplitLower(s[1..], sep);
      assert ToLower(s)[1..] == ToLower(s[1..]);
      var rest, lower := Split(s[1..], sep), Split(ToLower(s[1..]), sep);
      assert Split(s, sep) == Prepend(s[0], rest, sep);
      assert Split(ToLower(s), sep) == Prepend(LowerChar(s[0]), lower, sep);
      LowerPrepend(s[0], rest, lower, sep);
      hide Split, Prepend, ToLower;
    }
  }

  // ----- Decimal numbers -----

  predicate IsDigit(c: char) {
    '0' <= c <= '9'
  }

  function Digits(s: string): Option<nat> {
    if s == "" then None
    else
      var front, last := s[..|s| - 1], s[|s| - 1];
      if !IsDigit(last) then None
      else if front == "" then Some((last - '0') as nat)
      else match Digits(front)
        case None => None
        case Some(v) => Some(v * 10 + (last - '0') as nat)
  }

  /** Decimal parsing into a 64-bit integer: an optional sign, then digits, nothing else. */
  function Atoi(s: string): Option<int> {
    if s == "" then None
    else
      var negative := s[0] == '-';
      var body := if s[0] == '-' || s[0] == '+' then s[1..] else s;
      match Digits(body)
      case None => None
      case Some(v) =>
        var n: int := if negative then -(v as int) else v;
        if -0x8000_0000_0000_0000 <= n < 0x8000_0000_0000_0000 then Some(n) else None
  }

  function NatToText(n: nat): (s: string)
    ensures s != "" && IsDigit(s[0])
  {
    var last := '0' + (n % 10) as char;
    if n < 10 then [last] else NatToText(n / 10) + [last]
  }

  function Itoa(n: int): string {
    if n < 0 then "-" + NatToText(-n) else NatToText(n)
  }

  lemma {:induction false} DigitsOfNat(n: nat)
    ensures Digits(NatToText(n)) == Some(n)
  {
    if n >= 10 {
      DigitsOfNat(n / 10);
      var s := NatToText(n);
      assert s[..|s| - 1] == NatToText(n / 10);
    }
  }

  function Zeros(k: nat): string {
    if k == 0 then "" else "0" + Zeros(k - 1)
  }

  lemma {:induction false} ZerosAppend(k: nat)
    ensures Zeros(k) + "0" == Zeros(k + 1)
  {
    if k > 0 {
      ZerosAppend(k - 1);
      assert Zeros(k) + "0" == "0" + (Zeros(k - 1) + "0");
    } else {
      assert Zeros(0) + "0" == "0" + Zeros(0);
    }
  }

  lemma {:induction false} DigitsOfZeros(k: nat, n: nat)
    ensures Digits(Zeros(k) + NatToText(n)) == Some(n)
    decreases n, k
  {
    var s := Zeros(k) + NatToText(n);
    if n >= 10 {
      DigitsOfZeros(k, n / 10);
      assert s[..|s| - 1] == Zeros(k) + NatToText(n / 10);
    } else if k > 0 {
      DigitsOfZeros(k - 1, 0);
      ZerosAppend(k - 1);
      assert s[..|s| - 1] == Zeros(k) == Zeros(k - 1) + NatToText(0);
    } else {
      assert s == NatToText(n);
    }
  }

  lemma {:induction false} DigitsAreDecimal(s: string) returns (k: nat)
    requires Digits(s).Some?
    ensures s == Zeros(k) + NatToText(Digits(s).value)
  {
    var front, last := s[..|s| - 1], s[|s| - 1];
    if front == "" {
      k := 0;
      assert s == [last] == NatToText(Digits(s).value);
    } else {
      k := DigitsAreDecimal(front);
      var u := Digits(front).value;
      assert s == front + [last];
      if u == 0 {
        ZerosAppend(k);
        k := k + 1;
      } else {
        assert Digits(s).value / 10 == u;
        assert NatToText(Digits(s).value) == NatToText(u) + [last];
      }
    }
  }

  /** `s` is a sign or none, `k` zeros, and the decimal rendering of the magnitude of
      the 64-bit integer `n`. */
  predicate Reads(s: string, sign: string, k: nat, n: int) {
    && -0x8000_0000_0000_0000 <= n < 0x8000_0000_0000_0000
    && ((sign in {"", "+"} && n >= 0) || (sign == "-" && n <= 0))
    && s == sign + Zeros(k) + NatToText(if n < 0 then -n else n)
  }

  /** A text is read as `n` exactly when it has that form. */
  lemma AtoiExact(s: string, n: int)
    ensures Atoi(s) == Some(n) <==> exists sign, k: nat :: Reads(s, sign, k, n)
  {
    if Atoi(s) == Some(n) {
      var sign, k := AtoiReads(s, n);
    }
    if sign, k: nat :| Reads(s, sign, k, n) {
      ReadsAtoi(s, sign, k, n);
    }
  }

  lemma AtoiReads(s: string, n: int) returns (sign: string, k: nat)
    requires Atoi(s) == Some(n)
    ensures Reads(s, sign, k, n)
  {
    hide Digits, NatToText, Zeros;
    if s[0] == '-' || s[0] == '+' {
      sign := [s[0]];
      k := DigitsAreDecimal(s[1..]);
      assert s == sign + s[1..];
    } else {
      sign := "";
      k := DigitsAreDecimal(s);
    }
  }

  lemma DecimalHead(k: nat, m: nat)
    ensures var body := Zeros(k) + NatToText(m); body != "" && IsDigit(body[0])
  {
    hide NatToText;
    if k > 0 {
      assert Zeros(k)[0] == '0';
    } else {
      assert Zeros(k) + NatToText(m) == NatToText(m);
    }
  }

  lemma ReadsAtoi(s: string, sign: string, k: nat, n: int)
    requires Reads(s, sign, k, n)
    ensures Atoi(s) == Some(n)
  {
    hide Digits, NatToText, Zeros;
    var m: nat := if n < 0 then -n else n;
    var body := Zeros(k) + NatToText(m);
    DigitsOfZeros(k, m);
    DecimalHead(k, m);
    assert s == sign + body;
    if sign == "" {
      assert s == body;
    } else {
      assert s[1..] == body && s[0] == sign[0];
    }
  }

  /** A rendered count is read back unchanged, for every 64-bit integer. */
  lemma AtoiItoa(n: int)
    requires -0x8000_0000_0000_0000 <= n < 0x8000_0000_0000_0000
    ensures Itoa(n) != "" && Atoi(Itoa(n)) == Some(n)
  {
    if n < 0 {
      DigitsOfNat(-n);
      assert Itoa(n)[1..] == NatToText(-n);
    } else {
      DigitsOfNat(n);
    }
  }
}
