/** `compareSystemVersion` of omarchy/manifest-client/client.go. */
module SystemVersion {
  import opened Text

  const MAX_INT := 0x7FFF_FFFF_FFFF_FFFF

  function BeforeDash(value: string): string {
    Split(value, '-')[0]
  }

  predicate IsDigit(c: char) {
    '0' <= c <= '9'
  }

  predicate IsSpace(c: char) {
    c == ' ' || c == '\t' || c == '\r' || c as int == 0x0b || c as int == 0x0c || c as int == 0x85 || c as int == 0xa0
  }

  function Digits(s: string, value: nat): nat {
    if s == "" || !IsDigit(s[0]) then value else Digits(s[1..], value * 10 + (s[0] as int - '0' as int))
  }

  /** What `fmt.Sscanf(part, "%d", &n)` leaves in an `n` that was zero: the leading number if it
      fits an `int`, else zero. The part never contains a minus sign. */
  function Scanned(part: string): nat {
    if part == "" then 0
    else if IsSpace(part[0]) then Scanned(part[1..])
    else
      var value := Digits(if part[0] == '+' then part[1..] else part, 0);
      if value <= MAX_INT then value else 0
  }

  /** The three numbers a version is first compared by. */
  function Numbers(value: string): (r: seq<nat>)
    ensures |r| == 3
  {
    var parts := Split(BeforeDash(value), '.');
    seq(3, i requires 0 <= i < 3 => if i < |parts| then Scanned(parts[i]) else 0)
  }

  /** Bytewise `strings.Compare`. */
  function Lexical(a: string, b: string): int {
    if a == "" then (if b == "" then 0 else -1)
    else if b == "" then 1
    else if a[0] < b[0] then -1
    else if a[0] > b[0] then 1
    else Lexical(a[1..], b[1..])
  }

  /** The order meant: by the three numbers, then by the text. */
  function Order(left: string, right: string): int {
    OrderBy(Numbers(left), left, Numbers(right), right)
  }

  function OrderBy(a: seq<nat>, left: string, b: seq<nat>, right: string): int
    requires |a| == |b| == 3
  {
    if a[0] != b[0] then Sign(a[0], b[0])
    else if a[1] != b[1] then Sign(a[1], b[1])
    else if a[2] != b[2] then Sign(a[2], b[2])
    else Lexical(left, right)
  }

  function Sign(a: int, b: int): int {
    if a < b then -1 else if a > b then 1 else 0
  }

  method Parse(value: string) returns (result: seq<nat>)
    ensures result == Numbers(value)
  {
    var parts := Split(BeforeDash(value), '.');
    result := [0, 0, 0];
    var index := 0;
    while index < |parts| && index < 3
      invariant 0 <= index <= 3 && index <= |parts| && |result| == 3
      invariant forall i :: 0 <= i < index ==> result[i] == Scanned(parts[i])
      invariant forall i :: index <= i < 3 ==> result[i] == 0
    {
      result := result[index := Scanned(parts[index])];
      index := index + 1;
    }
  }

  method CompareNumbers(a: seq<nat>, left: string, b: seq<nat>, right: string) returns (order: int)
    requires |a| == |b| == 3
    ensures order == OrderBy(a, left, b, right)
  {
    for index := 0 to |a|
      invariant forall i :: 0 <= i < index ==> a[i] == b[i]
    {
      if a[index] < b[index] {
        return -1;
      }
      if a[index] > b[index] {
        return 1;
      }
    }
    return Lexical(left, right);
  }

  method CompareSystemVersion(left: string, right: string) returns (order: int)
    ensures order == Order(left, right)
  {
    var a := Parse(left);
    var b := Parse(right);
    order := CompareNumbers(a, left, b, right);
  }

  // ----- the order is total, and zero means equal -----

  lemma {:induction false} LexicalTotal(a: string, b: string)
    ensures Lexical(a, b) == -Lexical(b, a)
    ensures Lexical(a, b) == 0 <==> a == b
    ensures -1 <= Lexical(a, b) <= 1
  {
    if a != "" && b != "" {
      LexicalTotal(a[1..], b[1..]);
      assert a == [a[0]] + a[1..] && b == [b[0]] + b[1..];
    }
  }

  lemma {:induction false} LexicalTransitive(a: string, b: string, c: string)
    requires Lexical(a, b) <= 0 && Lexical(b, c) <= 0
    ensures Lexical(a, c) <= 0
  {
    if a != "" && b != "" && c != "" && a[0] == b[0] == c[0] {
      LexicalTransitive(a[1..], b[1..], c[1..]);
    }
  }

  lemma OrderTotal(a: string, b: string)
    ensures Order(a, b) == -Order(b, a)
    ensures Order(a, b) == 0 <==> a == b
  {
    OrderByTotal(Numbers(a), a, Numbers(b), b);
  }

  lemma OrderByTotal(x: seq<nat>, a: string, y: seq<nat>, b: string)
    requires |x| == |y| == 3 && (a == b ==> x == y)
    ensures OrderBy(x, a, y, b) == -OrderBy(y, b, x, a)
    ensures OrderBy(x, a, y, b) == 0 <==> a == b
  {
    LexicalTotal(a, b);
  }

  lemma OrderTransitive(a: string, b: string, c: string)
    requires Order(a, b) <= 0 && Order(b, c) <= 0
    ensures Order(a, c) <= 0
  {
    OrderByTransitive(Numbers(a), a, Numbers(b), b, Numbers(c), c);
  }

  lemma OrderByTransitive(x: seq<nat>, a: string, y: seq<nat>, b: string, z: seq<nat>, c: string)
    requires |x| == |y| == |z| == 3
    requires OrderBy(x, a, y, b) <= 0 && OrderBy(y, b, z, c) <= 0
    ensures OrderBy(x, a, z, c) <= 0
  {
    if x[0] == z[0] && x[1] == z[1] && x[2] == z[2] {
      LexicalTransitive(a, b, c);
    }
  }

  /** The empty version is below every other, so it never hides a decrease. */
  lemma EmptyLeast(v: string)
    ensures Order("", v) <= 0 && (Order("", v) == 0 <==> v == "")
  {
    assert Split(BeforeDash(""), '.') == [""];
    OrderTotal("", v);
  }
}
