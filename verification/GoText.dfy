/** The parts of Go's `strings`, `strconv` and map iteration that the webhook relies on. */
module GoText {

  datatype Option<+T> = None | Some(value: T)

  datatype Result<+T, +E> = Ok(value: T) | Err(error: E)

  /** Reading a Go map: an absent key reads as the empty string. */
  function Get(m: map<string, string>, k: string): string {
    if k in m then m[k] else ""
  }

  /** One possible order of a `range` loop over a map: every key once. */
  ghost predicate IsEnumeration(order: seq<string>, keys: set<string>) {
    && (forall i, j :: 0 <= i < j < |order| ==> order[i] != order[j])
    && (forall k :: k in order <==> k in keys)
  }

  /** Every finite key set has such an order. */
  lemma EnumerationOf(keys: set<string>) returns (order: seq<string>)
    ensures IsEnumeration(order, keys)
    decreases |keys|
  {
    if keys == {} { return []; }
    var k :| k in keys;
    var rest := EnumerationOf(keys - {k});
    return [k] + rest;
  }

  // ---------------------------------------------------------------- strings

  predicate HasSuffix(s: string, t: string) {
    |t| <= |s| && s[|s| - |t|..] == t
  }

  function TrimPrefix(s: string, p: string): string {
    if p <= s then s[|p|..] else s
  }

  function TrimSuffix(s: string, t: string): string {
    if HasSuffix(s, t) then s[..|s| - |t|] else s
  }

  /** `strings.Index` for a one-byte pattern. */
  function IndexByte(s: string, c: char): (m: int)
    ensures -1 <= m < |s|
    ensures m < 0 <==> c !in s
    ensures m >= 0 ==> s[m] == c && forall k :: 0 <= k < m ==> s[k] != c
  {
    if s == "" then -1
    else if s[0] == c then 0
    else
      var r := IndexByte(s[1..], c);
      if r < 0 then -1 else r + 1
  }

  /** `strings.SplitN(s, c, 2)`. */
  function Cut(s: string, c: char): (parts: seq<string>)
    ensures 1 <= |parts| <= 2
    ensures |parts| == 2 <==> c in s
  {
    var m := IndexByte(s, c);
    if m < 0 then [s] else [s[..m], s[m + 1..]]
  }

  /** `strings.Split` for a one-byte separator. */
  function SplitByte(s: string, c: char): (parts: seq<string>)
    ensures |parts| >= 1
    decreases |s|
  {
    var m := IndexByte(s, c);
    if m < 0 then [s] else [s[..m]] + SplitByte(s[m + 1..], c)
  }

  /** The cut falls at the first separator: what stands before it holds none. */
  lemma CutAtFirst(name: string, c: char, rest: string)
    requires c !in name
    ensures Cut(name + [c] + rest, c) == [name, rest]
  {
    var s := name + [c] + rest;
    var m := IndexByte(s, c);
    assert s[|name|] == c;
    assert forall k :: 0 <= k < |name| ==> s[k] == name[k];
    assert m == |name|;
    assert s[..m] == name && s[m + 1..] == rest;
  }

  // ------------------------------------------- splitting at a longer pattern

  predicate OccursAt(s: string, sep: string, k: int) {
    0 <= k && k + |sep| <= |s| && s[k..k + |sep|] == sep
  }

  /** `strings.Index`. */
  function Index(s: string, sep: string): (m: int)
    requires sep != ""
    ensures m == -1 || OccursAt(s, sep, m)
  {
    if sep <= s then 0
    else if s == "" then -1
    else
      var r := Index(s[1..], sep);
      if r < 0 then -1 else r + 1
  }

  /** `strings.Split`. */
  function Split(s: string, sep: string): (parts: seq<string>)
    requires sep != ""
    ensures |parts| >= 1
    decreases |s|
  {
    var m := Index(s, sep);
    if m < 0 then [s] else [s[..m]] + Split(s[m + |sep|..], sep)
  }

  /** `strings.SplitAfter`: every piece but the last keeps the separator at its end. */
  function SplitAfter(s: string, sep: string): (parts: seq<string>)
    requires sep != ""
    ensures |parts| >= 1
    decreases |s|
  {
    var m := Index(s, sep);
    if m < 0 then [s] else [s[..m + |sep|]] + SplitAfter(s[m + |sep|..], sep)
  }

  // ------------------------------------------------------------------ numbers

  const TWO_TO_63: int := 0x8000_0000_0000_0000
  const TWO_TO_64: int := 0x1_0000_0000_0000_0000

  predicate IsDigit(c: char) { '0' <= c <= '9' }

  datatype Scanned = Number(n: nat) | Overflow | BadSyntax

  /** The digit loop of `strconv.ParseUint`: it stops at the first bad byte or at the first overflow. */
  function ScanDigits(s: string, acc: nat): Scanned {
    if s == "" then Number(acc)
    else if !IsDigit(s[0]) then BadSyntax
    else
      var n := acc * 10 + (s[0] as int - '0' as int);
      if n >= TWO_TO_64 then Overflow else ScanDigits(s[1..], n)
  }

  predicate Signed(s: string) { s != "" && (s[0] == '-' || s[0] == '+') }

  function Digits(s: string): string { if Signed(s) then s[1..] else s }

  function ScanNumber(s: string): Scanned {
    if Digits(s) == "" then BadSyntax else ScanDigits(Digits(s), 0)
  }

  /** `strconv.Atoi` with its error dropped: zero on bad syntax, clamped to 64 bits on overflow. */
  function Atoi(s: string): int {
    var negative := s != "" && s[0] == '-';
    match ScanNumber(s)
    case BadSyntax => 0
    case Overflow => if negative then -TWO_TO_63 else TWO_TO_63 - 1
    case Number(n) =>
      if negative then (if n > TWO_TO_63 then -TWO_TO_63 else -(n as int))
      else (if n >= TWO_TO_63 then TWO_TO_63 - 1 else n)
  }

  /** The decimal numeral of a number. */
  function Decimal(n: nat): string {
    if n < 10 then [DigitOf(n)] else Decimal(n / 10) + [DigitOf(n % 10)]
  }

  function DigitOf(d: nat): (c: char)
    requires d < 10
    ensures IsDigit(c) && c as int - '0' as int == d
  {
    ('0' as int + d) as char
  }

  lemma {:induction false} ScanOneMore(s: string, c: char, acc: nat)
    requires ScanDigits(s, acc).Number? && IsDigit(c)
    ensures var n := ScanDigits(s, acc).n * 10 + (c as int - '0' as int);
            ScanDigits(s + [c], acc) == if n >= TWO_TO_64 then Overflow else Number(n)
    decreases |s|
  {
    if s == "" {
      assert s + [c] == [c];
      assert ScanDigits([c][1..], acc * 10 + (c as int - '0' as int)) == Number(acc * 10 + (c as int - '0' as int));
    } else {
      assert IsDigit(s[0]) && (s + [c])[1..] == s[1..] + [c];
      ScanOneMore(s[1..], c, acc * 10 + (s[0] as int - '0' as int));
    }
  }

  lemma {:induction false} ScanReadsDecimal(n: nat)
    requires n < TWO_TO_64
    ensures ScanDigits(Decimal(n), 0) == Number(n) && Decimal(n) != "" && IsDigit(Decimal(n)[0])
    decreases n
  {
    if n < 10 {
      assert ScanDigits([DigitOf(n)][1..], n) == Number(n);
    } else {
      ScanReadsDecimal(n / 10);
      ScanOneMore(Decimal(n / 10), DigitOf(n % 10), 0);
    }
  }

  /** `strconv.Atoi` undoes printing, with any sign in front. */
  lemma AtoiReadsDecimal(n: nat)
    requires n < TWO_TO_63
    ensures Atoi(Decimal(n)) == Atoi("+" + Decimal(n)) == n && Atoi("-" + Decimal(n)) == -(n as int)
  {
    ScanReadsDecimal(n);
    assert !Signed(Decimal(n));
    assert ("+" + Decimal(n))[1..] == Decimal(n) && ("-" + Decimal(n))[1..] == Decimal(n);
    hide ScanDigits, Decimal;
  }

  /** `strings.Index` finds the first occurrence, if there is any. */
  lemma {:induction false} IndexIsFirst(s: string, sep: string, k: nat)
    requires sep != "" && OccursAt(s, sep, k)
    ensures 0 <= Index(s, sep) <= k
    decreases |s|
  {
    if !(sep <= s) {
      assert k > 0 && s[1..][k - 1..k - 1 + |sep|] == s[k..k + |sep|];
      IndexIsFirst(s[1..], sep, k - 1);
    }
  }

  /** A non-digit after a readable number spoils it; after an overflow or an earlier bad byte it is never reached. */
  lemma {:induction false} ScanSpoiled(s: string, t: string, acc: nat)
    requires t != "" && !IsDigit(t[0])
    ensures ScanDigits(s + t, acc) == if ScanDigits(s, acc).Number? then BadSyntax else ScanDigits(s, acc)
    decreases |s|
  {
    if s == "" {
      assert s + t == t;
    } else {
      assert (s + t)[1..] == s[1..] + t;
      if IsDigit(s[0]) {
        var n := acc * 10 + (s[0] as int - '0' as int);
        if n < TWO_TO_64 { ScanSpoiled(s[1..], t, n); }
      }
    }
  }

  /** Text behind a number turns a readable number into zero, and changes nothing else. */
  lemma NumberSpoiled(s: string, t: string)
    requires t != "" && !IsDigit(t[0]) && t[0] != '-' && t[0] != '+'
    ensures Atoi(s + t) == if ScanNumber(s).Number? then 0 else Atoi(s)
  {
    assert (s + t)[0] == if s == "" then t[0] else s[0];
    assert Digits(s + t) == Digits(s) + t;
    ScanSpoiled(Digits(s), t, 0);
  }

  /** `strconv.ParseBool` with its error dropped. */
  predicate ParseBool(s: string) {
    s in {"1", "t", "T", "true", "TRUE", "True"}
  }
}
