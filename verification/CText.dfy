/** The text functions of the C and C++ libraries that the SMS code relies on: `strtol`, `std::to_string`
    and `std::string::find`, with their inversion laws. */
module CText {
  import opened Wrappers

  // ----- digits

  predicate IsDecDigit(c: char) {
    '0' <= c <= '9'
  }

  predicate IsHexDigit(c: char) {
    IsDecDigit(c) || 'a' <= c <= 'f' || 'A' <= c <= 'F'
  }

  /** The value of a character as a digit, 36 if it is none. */
  function DigitValue(c: char): (v: nat)
    ensures v <= 36
    ensures IsDecDigit(c) <==> v < 10
    ensures IsHexDigit(c) <==> v < 16
  {
    if IsDecDigit(c) then c as int - '0' as int
    else if 'a' <= c <= 'z' then c as int - 'a' as int + 10
    else if 'A' <= c <= 'Z' then c as int - 'A' as int + 10
    else 36
  }

  /** The digits are numbered as ASCII has them, letters of either case from ten. */
  lemma DigitValueIs(c: char)
    ensures 48 <= c as int <= 57 ==> DigitValue(c) == c as int - 48
    ensures 65 <= c as int <= 90 ==> DigitValue(c) == c as int - 65 + 10
    ensures 97 <= c as int <= 122 ==> DigitValue(c) == c as int - 97 + 10
  {
  }

  /** The length of the longest prefix of digits in `base`. */
  function DigitCount(s: string, base: nat): (k: nat)
    ensures k <= |s|
    ensures forall i :: 0 <= i < k ==> DigitValue(s[i]) < base
    ensures k < |s| ==> DigitValue(s[k]) >= base
  {
    if s == [] || DigitValue(s[0]) >= base then 0 else 1 + DigitCount(s[1..], base)
  }

  /** The value of a digit string, most significant digit first. */
  function Value(s: string, base: nat): nat {
    if s == [] then 0 else Value(s[..|s| - 1], base) * base + DigitValue(s[|s| - 1])
  }

  // ----- strtol

  predicate IsSpace(c: char) {
    c == ' ' || '\t' <= c <= '\r'
  }

  function SkipSpace(s: string): string {
    if s != [] && IsSpace(s[0]) then SkipSpace(s[1..]) else s
  }

  /** The optional 0x of base 16 counts only when a digit follows. */
  function SkipPrefix(s: string, base: nat): string {
    if base == 16 && |s| >= 3 && s[0] == '0' && (s[1] == 'x' || s[1] == 'X') && DigitValue(s[2]) < 16 then s[2..] else s
  }

  /** The range of `long`: 32 or 64 bits, as the platform has it. */
  predicate LongMax(max: int) {
    max == 0x7fff_ffff || max == 0x7fff_ffff_ffff_ffff
  }

  /** The number that the leading digits spell. */
  function Leading(u: string, base: nat): nat {
    Value(u[..DigitCount(u, base)], base)
  }

  /** `strtol(s, nullptr, base)`: spaces, sign, digits, then anything; saturating. */
  function Strtol(s: string, base: nat, max: int): int {
    var t := SkipSpace(s);
    var negative := t != [] && t[0] == '-';
    var u := SkipPrefix(if t != [] && (t[0] == '-' || t[0] == '+') then t[1..] else t, base);
    var n: int := Leading(u, base);
    if negative then (if n > max + 1 then -max - 1 else -n) else (if n > max then max else n)
  }

  /** A text that starts with a digit, and not with 0x. */
  lemma StrtolPlain(s: string, base: nat, max: int)
    requires s == [] || DigitValue(s[0]) < 36
    requires SkipPrefix(s, base) == s && Leading(s, base) <= max
    ensures Strtol(s, base, max) == Leading(s, base)
  {
    assert SkipSpace(s) == s;
  }

  /** On hexadecimal digits only, base 16 gives their value. */
  lemma StrtolHex(s: string, max: int)
    requires forall i :: 0 <= i < |s| ==> IsHexDigit(s[i])
    requires Value(s, 16) <= max
    ensures Strtol(s, 16, max) == Value(s, 16)
  {
    AllDigits(s, 16);
    if s != [] {
      assert IsHexDigit(s[0]);
    }
    if |s| > 1 {
      assert IsHexDigit(s[1]);
    }
    StrtolPlain(s, 16, max);
  }

  lemma AllDigits(s: string, base: nat)
    requires forall i :: 0 <= i < |s| ==> DigitValue(s[i]) < base
    ensures Leading(s, base) == Value(s, base)
  {
    assert DigitCount(s, base) == |s|;
    assert s[..|s|] == s;
  }

  // ----- to_string

  function DecDigit(d: nat): (c: char)
    requires d < 10
    ensures IsDecDigit(c) && DigitValue(c) == d
  {
    '0' + d as char
  }

  function NatText(n: nat): (s: string)
    ensures |s| > 0 && forall i :: 0 <= i < |s| ==> IsDecDigit(s[i])
  {
    if n < 10 then [DecDigit(n)] else NatText(n / 10) + [DecDigit(n % 10)]
  }

  /** `std::to_string`. */
  function ToString(n: int): (s: string)
    ensures |s| > 0
  {
    if n < 0 then "-" + NatText(-n) else NatText(n)
  }

  /** Numbers are written with the most significant digit first, and read so. */
  lemma NatTextGrows(n: nat, d: nat)
    requires d < 10
    ensures NatText(d) == [(48 + d) as char]
    ensures n > 0 ==> NatText(10 * n + d) == NatText(n) + [(48 + d) as char]
  {
    assert (10 * n + d) / 10 == n && (10 * n + d) % 10 == d;
  }

  lemma ValueGrows(s: string, c: char, base: nat)
    ensures Value([], base) == 0
    ensures Value(s + [c], base) == base * Value(s, base) + DigitValue(c)
  {
    assert (s + [c])[..|s|] == s;
  }

  lemma {:induction false} SkipsSpaces(space: string, t: string)
    requires (forall i :: 0 <= i < |space| ==> space[i] == ' ' || 9 <= space[i] as int <= 13)
    requires t == [] || !(t[0] == ' ' || 9 <= t[0] as int <= 13)
    ensures SkipSpace(space + t) == t
  {
    if space == [] {
      assert space + t == t;
    } else {
      assert (space + t)[0] == space[0] && (space + t)[1..] == space[1..] + t;
      SkipsSpaces(space[1..], t);
    }
  }

  lemma LeadingOfDigits(digits: string, rest: string)
    requires (forall i :: 0 <= i < |digits| ==> IsDecDigit(digits[i])) && Stops(rest)
    ensures Leading(digits + rest, 10) == Value(digits, 10)
  {
    DigitCountOfPrefix(digits, rest);
    assert (digits + rest)[..|digits|] == digits;
  }

  lemma StrtolSkips(space: string, t: string, max: int)
    requires (forall i :: 0 <= i < |space| ==> space[i] == ' ' || 9 <= space[i] as int <= 13)
    requires t == [] || !(t[0] == ' ' || 9 <= t[0] as int <= 13)
    ensures Strtol(space + t, 10, max) == Strtol(t, 10, max)
  {
    SkipsSpaces(space, t);
    SkipsSpaces("", t);
    assert "" + t == t;
  }

  lemma StrtolSign(sign: string, u: string, max: int)
    requires sign == "" || sign == "+" || sign == "-"
    requires u != "" && IsDecDigit(u[0])
    ensures var n: int := Leading(u, 10);
            Strtol(sign + u, 10, max) ==
            if sign == "-" then (if n > max + 1 then -max - 1 else -n) else (if n > max then max else n)
  {
    var t := sign + u;
    if sign == "" {
      assert t == u;
    } else {
      assert t[0] == sign[0] && t[1..] == u;
    }
  }

  /** `strtol` in base 10: space, a sign or none, digits, and what is not a digit; the value is cut to a `long`. */
  lemma StrtolReads(space: string, sign: string, digits: string, rest: string, max: int)
    requires (forall i :: 0 <= i < |space| ==> space[i] == ' ' || 9 <= space[i] as int <= 13)
    requires sign == "" || sign == "+" || sign == "-"
    requires digits != "" && (forall i :: 0 <= i < |digits| ==> IsDecDigit(digits[i])) && Stops(rest)
    ensures var n: int := Value(digits, 10);
            Strtol(space + (sign + (digits + rest)), 10, max) ==
            if sign == "-" then (if n > max + 1 then -max - 1 else -n) else (if n > max then max else n)
  {
    var u := digits + rest;
    assert u[0] == digits[0] && IsDecDigit(digits[0]);
    LeadingOfDigits(digits, rest);
    StrtolSign(sign, u, max);
    assert (sign + u)[0] == if sign == "" then u[0] else sign[0];
    StrtolSkips(space, sign + u, max);
  }

  /** A text that starts with neither space, sign nor digit is read as 0. */
  lemma NoNumberIsZero(t: string, max: int)
    requires max >= 0
    requires t == [] || !(t[0] in " +-" || 9 <= t[0] as int <= 13 || 48 <= t[0] as int <= 57)
    ensures Strtol(t, 10, max) == 0
  {
  }

  lemma {:induction false} ValueOfNatText(n: nat)
    ensures Value(NatText(n), 10) == n
  {
    var s := NatText(n);
    if n >= 10 {
      ValueOfNatText(n / 10);
      assert s[..|s| - 1] == NatText(n / 10);
    } else {
      assert s[..|s| - 1] == [];
    }
  }

  /** A continuation the digits of a number do not run into. */
  predicate Stops(rest: string) {
    rest == [] || !IsDecDigit(rest[0])
  }

  lemma DigitCountOfPrefix(s: string, rest: string)
    requires (forall i :: 0 <= i < |s| ==> IsDecDigit(s[i])) && Stops(rest)
    ensures DigitCount(s + rest, 10) == |s|
  {
    assert forall i :: 0 <= i < |s| ==> (s + rest)[i] == s[i];
    assert rest != [] ==> (s + rest)[|s|] == rest[0];
  }

  lemma LeadingOfNatText(n: nat, rest: string)
    requires Stops(rest)
    ensures Leading(NatText(n) + rest, 10) == n
  {
    var s := NatText(n);
    ValueOfNatText(n);
    DigitCountOfPrefix(s, rest);
    assert (s + rest)[..|s|] == s;
  }

  lemma StrtolOfNegative(m: nat, rest: string, max: int)
    requires m <= max + 1 && Stops(rest)
    ensures Strtol("-" + NatText(m) + rest, 10, max) == 0 - m
  {
    LeadingOfNatText(m, rest);
    Assoc("-", NatText(m), rest);
    StrtolSigned(NatText(m) + rest, max);
  }

  lemma StrtolSigned(u: string, max: int)
    requires Leading(u, 10) <= max + 1
    ensures Strtol("-" + u, 10, max) == 0 - Leading(u, 10)
  {
    var t := "-" + u;
    assert t[0] == '-' && t[1..] == u && SkipSpace(t) == t;
  }

  lemma StrtolOfNat(m: nat, rest: string, max: int)
    requires m <= max && Stops(rest)
    ensures Strtol(NatText(m) + rest, 10, max) == m
  {
    var t := NatText(m) + rest;
    LeadingOfNatText(m, rest);
    assert t[0] == NatText(m)[0];
    StrtolPlain(t, 10, max);
  }

  /** `strtol` inverts `to_string` for every value of `long`, whatever text follows the number. */
  lemma StrtolOfToString(n: int, rest: string, max: int)
    requires -max - 1 <= n <= max && Stops(rest)
    ensures Strtol(ToString(n) + rest, 10, max) == n
  {
    if n < 0 {
      assert ToString(n) == "-" + NatText(-n);
      StrtolOfNegative(-n, rest, max);
    } else {
      assert ToString(n) == NatText(n);
      StrtolOfNat(n, rest, max);
    }
  }

  // ----- find and split

  predicate OccursAt(s: string, d: string, i: int) {
    0 <= i && i + |d| <= |s| && s[i..i + |d|] == d
  }

  lemma OccursShift(s: string, d: string, i: int, k: nat)
    requires k <= |s| && k <= i
    ensures OccursAt(s, d, i) <==> OccursAt(s[k..], d, i - k)
  {
    if i + |d| <= |s| {
      assert s[i..i + |d|] == s[k..][i - k..i - k + |d|];
    }
  }

  lemma OccursLater(s: string, d: string)
    requires s != []
    ensures forall i | i >= 1 :: OccursAt(s, d, i) <==> OccursAt(s[1..], d, i - 1)
  {
    forall i | i >= 1 ensures OccursAt(s, d, i) <==> OccursAt(s[1..], d, i - 1) {
      OccursShift(s, d, i, 1);
    }
  }

  /** `find`: the first position at which `d` occurs, or -1. */
  function Find(s: string, d: string): (p: int)
    requires d != []
    ensures -1 <= p && (p >= 0 ==> OccursAt(s, d, p))
    ensures forall i :: OccursAt(s, d, i) ==> 0 <= p <= i
  {
    if |s| < |d| then -1
    else if s[..|d|] == d then 0
    else
      OccursLater(s, d);
      var r := Find(s[1..], d);
      assert r >= 0 ==> OccursAt(s, d, r + 1);
      assert forall i | OccursAt(s, d, i) :: i >= 1 && OccursAt(s[1..], d, i - 1);
      if r < 0 then -1 else r + 1
  }

  ghost predicate Occurs(s: string, d: string) {
    exists i :: OccursAt(s, d, i)
  }

  /** The parts between the occurrences of `d`, from the left. */
  function Split(s: string, d: string): (parts: seq<string>)
    requires d != []
    ensures |parts| > 0
  {
    var p := Find(s, d);
    if p < 0 then [s] else [s[..p]] + Split(s[p + |d|..], d)
  }

  function Join(parts: seq<string>, d: string): string
    requires parts != []
  {
    if |parts| == 1 then parts[0] else parts[0] + d + Join(parts[1..], d)
  }

  lemma JoinCons(first: string, parts: seq<string>, d: string)
    requires parts != []
    ensures Join([first] + parts, d) == first + d + Join(parts, d)
  {
    assert ([first] + parts)[1..] == parts;
  }

  lemma {:induction false} JoinSnoc(parts: seq<string>, last: string, d: string)
    requires parts != []
    ensures Join(parts + [last], d) == Join(parts, d) + d + last
    decreases |parts|
  {
    var all := parts + [last];
    if |parts| == 1 {
      assert all[1..] == [last] && all[0] == parts[0];
    } else {
      assert all[1..] == parts[1..] + [last] && all[0] == parts[0];
      JoinSnoc(parts[1..], last, d);
    }
  }

  lemma CutAt(s: string, d: string, p: nat)
    requires OccursAt(s, d, p)
    ensures s == s[..p] + d + s[p + |d|..]
  {
  }

  /** Splitting loses nothing. */
  lemma {:induction false} JoinSplit(s: string, d: string)
    requires d != []
    ensures Join(Split(s, d), d) == s
    decreases |s|
  {
    var p := Find(s, d);
    if p >= 0 {
      var rest := s[p + |d|..];
      JoinSplit(rest, d);
      JoinCons(s[..p], Split(rest, d), d);
      CutAt(s, d, p);
    }
  }

  lemma OccursInPrefix(s: string, d: string, p: nat, i: int)
    requires p <= |s| && OccursAt(s[..p], d, i)
    ensures OccursAt(s, d, i)
  {
    assert s[..p][i..i + |d|] == s[i..i + |d|];
  }

  /** No part contains the delimiter. */
  lemma {:induction false} PartsAreClean(s: string, d: string, k: nat)
    requires d != [] && k < |Split(s, d)|
    ensures !Occurs(Split(s, d)[k], d)
    decreases |s|
  {
    var p := Find(s, d);
    if p >= 0 {
      if k == 0 {
        forall i ensures !OccursAt(s[..p], d, i) {
          if OccursAt(s[..p], d, i) {
            OccursInPrefix(s, d, p, i);
          }
        }
      } else {
        PartsAreClean(s[p + |d|..], d, k - 1);
      }
    }
  }

  lemma CharOccurs(s: string, c: char, i: int)
    ensures OccursAt(s, [c], i) <==> 0 <= i < |s| && s[i] == c
  {
    if 0 <= i < |s| {
      assert s[i..i + 1] == [s[i]];
    }
  }

  /** The first occurrence of a single character. */
  lemma FindChar(a: string, c: char, rest: string)
    requires c !in a
    ensures Find(a, [c]) == -1
    ensures Find(a + [c] + rest, [c]) == |a|
  {
    CharOccurs(a, c, Find(a, [c]));
    var t := a + [c] + rest;
    CharOccurs(t, c, |a|);
    CharOccurs(t, c, Find(t, [c]));
  }

  /** Splitting at a character inverts joining parts without that character. */
  lemma {:induction false} SplitJoin(parts: seq<string>, c: char)
    requires parts != [] && forall i :: 0 <= i < |parts| ==> c !in parts[i]
    ensures Split(Join(parts, [c]), [c]) == parts
    decreases |parts|
  {
    if |parts| == 1 {
      FindChar(parts[0], c, []);
    } else {
      var rest := Join(parts[1..], [c]);
      FindChar(parts[0], c, rest);
      var s := Join(parts, [c]);
      assert s == parts[0] + [c] + rest;
      assert s[..|parts[0]|] == parts[0] && s[|parts[0]| + 1..] == rest;
      SplitJoin(parts[1..], c);
    }
  }

  /** How often a character occurs. */
  function Count(s: string, c: char): nat {
    multiset(s)[c]
  }

  /** There is one part more than there are delimiters. */
  lemma {:induction false} PartCount(s: string, c: char)
    ensures |Split(s, [c])| == 1 + Count(s, c)
    decreases |s|
  {
    var p := Find(s, [c]);
    NotBeforeFind(s, c);
    if p >= 0 {
      assert s == s[..p] + [c] + s[p + 1..];
      PartCount(s[p + 1..], c);
    }
  }

  lemma NotBeforeFind(s: string, c: char)
    ensures var p := Find(s, [c]); if p < 0 then c !in s else p < |s| && s[p] == c && c !in s[..p]
  {
    var p := Find(s, [c]);
    CharOccurs(s, c, p);
    forall i | 0 <= i < |s| && s[i] == c ensures 0 <= p <= i {
      CharOccurs(s, c, i);
    }
  }
}
