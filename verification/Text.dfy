/** The string functions of Go's standard library that the service relies on. */
module Text {

  /** strings.Join */
  function Join(parts: seq<string>, sep: char): string {
    if parts == [] then ""
    else if |parts| == 1 then parts[0]
    else parts[0] + [sep] + Join(parts[1..], sep)
  }

  /** strings.Split with a one-character separator */
  function Split(s: string, sep: char): (parts: seq<string>)
    ensures parts != []
  {
    if s == "" then [""]
    else
      var rest := Split(s[1..], sep);
      if s[0] == sep then [""] + rest else [[s[0]] + rest[0]] + rest[1..]
  }

  /** The part of s before the first sep, and the part after it: strings.SplitN(s, sep, 2)[0] and [1]. */
  function Before(s: string, sep: char): string {
    if s == "" || s[0] == sep then "" else [s[0]] + Before(s[1..], sep)
  }

  function After(s: string, sep: char): string {
    if s == "" then "" else if s[0] == sep then s[1..] else After(s[1..], sep)
  }

  /** strings.Count */
  function Count(s: string, c: char): nat {
    if s == "" then 0 else (if s[0] == c then 1 else 0) + Count(s[1..], c)
  }

  /** strings.ReplaceAll */
  function ReplaceAll(s: string, old_: string, new_: string): string
    requires old_ != ""
  {
    if s == "" then ""
    else if old_ <= s then new_ + ReplaceAll(s[|old_|..], old_, new_)
    else [s[0]] + ReplaceAll(s[1..], old_, new_)
  }

  /** fmt %d of a natural number */
  function Digits(n: nat): (s: string)
    ensures s != "" && forall c :: c in s ==> '0' <= c <= '9'
  {
    var last := [('0' as int + n % 10) as char];
    if n < 10 then last else Digits(n / 10) + last
  }

  /** strings.ToUpper on ASCII letters */
  function ToUpper(s: string): string {
    seq(|s|, i requires 0 <= i < |s| => if 'a' <= s[i] <= 'z' then (s[i] as int - 32) as char else s[i])
  }

  // One character but for the case of an ASCII letter.
  predicate SameLetter(c: char, d: char) {
    c == d || ('a' <= c <= 'z' && c as int - d as int == 32) || ('a' <= d <= 'z' && d as int - c as int == 32)
  }

  predicate SameButForCase(s: string, t: string) {
    |s| == |t| && forall i :: 0 <= i < |s| ==> SameLetter(s[i], t[i])
  }

  /** Go's < on strings, character by character */
  predicate Less(a: string, b: string) {
    b != "" && (a == "" || a[0] < b[0] || (a[0] == b[0] && Less(a[1..], b[1..])))
  }

  // unicode.IsSpace
  predicate IsSpace(c: char) {
    c in "\t\n\U{B}\U{C}\r \U{85}\U{A0}\U{1680}\U{2028}\U{2029}\U{202F}\U{205F}\U{3000}"
    || '\U{2000}' <= c <= '\U{200A}'
  }

  function TrimLeft(s: string): string {
    if s != "" && IsSpace(s[0]) then TrimLeft(s[1..]) else s
  }

  function TrimRight(s: string): string {
    if s != "" && IsSpace(s[|s| - 1]) then TrimRight(s[..|s| - 1]) else s
  }

  /** strings.TrimSpace */
  function TrimSpace(s: string): string {
    TrimRight(TrimLeft(s))
  }

  /** strings.TrimSpace(s) == "" */
  predicate IsBlank(s: string) {
    forall c :: c in s ==> IsSpace(c)
  }

  // ----- Lemmas -----

  /** Nothing is left of a text after trimming exactly if it is all white space. */
  lemma {:induction false} BlankExactly(s: string)
    ensures IsBlank(s) <==> TrimSpace(s) == ""
  {
    if s != "" && IsSpace(s[0]) {
      assert s == [s[0]] + s[1..];
      BlankExactly(s[1..]);
    } else if s != "" {
      TrimRightKeeps(s);
    }
  }

  lemma {:induction false} TrimRightKeeps(s: string)
    requires s != "" && !IsSpace(s[0])
    ensures TrimRight(s) != ""
  {
    if IsSpace(s[|s| - 1]) {
      assert |s| > 1 && s[..|s| - 1][0] == s[0];
      TrimRightKeeps(s[..|s| - 1]);
    }
  }

  /** Two texts have the same upper case exactly if they differ in the case of ASCII letters only. */
  lemma {:induction false} UpperExactly(s: string, t: string)
    ensures ToUpper(s) == ToUpper(t) <==> SameButForCase(s, t)
  {
    if ToUpper(s) == ToUpper(t) {
      forall i | 0 <= i < |s| ensures SameLetter(s[i], t[i]) {
        assert ToUpper(s)[i] == ToUpper(t)[i];
      }
    }
  }

  lemma {:induction false} SplitWhole(s: string, sep: char)
    requires sep !in s
    ensures Split(s, sep) == [s]
  {
    if s != "" {
      SplitWhole(s[1..], sep);
      assert [s[0]] + s[1..] == s;
    }
  }

  lemma {:induction false} SplitCons(s: string, sep: char, rest: string)
    requires sep !in s
    ensures Split(s + [sep] + rest, sep) == [s] + Split(rest, sep)
  {
    var whole := s + [sep] + rest;
    if s == "" {
      assert whole[1..] == rest;
    } else {
      SplitCons(s[1..], sep, rest);
      assert whole[1..] == s[1..] + [sep] + rest;
      assert Split(whole[1..], sep)[0] == s[1..] && Split(whole[1..], sep)[1..] == Split(rest, sep);
      assert [s[0]] + s[1..] == s;
    }
  }

  /** Splitting undoes joining when no part contains the separator. */
  lemma {:induction false} SplitJoin(parts: seq<string>, sep: char)
    requires parts != [] && forall p :: p in parts ==> sep !in p
    ensures Split(Join(parts, sep), sep) == parts
  {
    if |parts| == 1 {
      SplitWhole(parts[0], sep);
    } else {
      SplitJoin(parts[1..], sep);
      SplitCons(parts[0], sep, Join(parts[1..], sep));
    }
  }

  lemma {:induction false} BeforeAfter(s: string, sep: char, rest: string)
    requires sep !in s
    ensures Before(s + [sep] + rest, sep) == s && After(s + [sep] + rest, sep) == rest
    ensures Before(s, sep) == s
  {
    var whole := s + [sep] + rest;
    if s == "" {
      assert whole[1..] == rest;
    } else {
      BeforeAfter(s[1..], sep, rest);
      assert whole[1..] == s[1..] + [sep] + rest;
    }
  }

  lemma {:induction false} DigitsInjective(m: nat, n: nat)
    requires Digits(m) == Digits(n)
    ensures m == n
  {
    assert (m >= 10 ==> |Digits(m)| >= 2) && (n >= 10 ==> |Digits(n)| >= 2);
    assert Digits(m)[|Digits(m)| - 1] == Digits(n)[|Digits(n)| - 1];
    if m >= 10 && n >= 10 {
      assert Digits(m)[..|Digits(m)| - 1] == Digits(m / 10);
      assert Digits(n)[..|Digits(n)| - 1] == Digits(n / 10);
      DigitsInjective(m / 10, n / 10);
    }
  }

  lemma {:induction false} CountAppend(a: string, b: string, c: char)
    ensures Count(a + b, c) == Count(a, c) + Count(b, c)
  {
    if a == "" {
      assert a + b == b;
    } else {
      assert (a + b)[1..] == a[1..] + b;
      CountAppend(a[1..], b, c);
    }
  }

  lemma {:induction false} CountAbsent(s: string, c: char)
    requires c !in s
    ensures Count(s, c) == 0
  {
    if s != "" {
      CountAbsent(s[1..], c);
    }
  }

  // Replacement leaves a prefix alone in which the pattern cannot start.
  lemma {:induction false} ReplaceAfter(s: string, rest: string, old_: string, new_: string)
    requires old_ != "" && old_[0] !in s
    ensures ReplaceAll(s + rest, old_, new_) == s + ReplaceAll(rest, old_, new_)
  {
    if s == "" {
      assert s + rest == rest;
    } else {
      assert (s + rest)[1..] == s[1..] + rest;
      ReplaceAfter(s[1..], rest, old_, new_);
    }
  }

  lemma {:induction false} LessOrder(a: string, b: string, c: string)
    ensures !Less(a, a)
    ensures Less(a, b) || Less(b, a) || a == b
    ensures Less(a, b) && Less(b, c) ==> Less(a, c)
    decreases |a| + |b| + |c|
  {
    if a != "" { LessOrder(a[1..], if b == "" then "" else b[1..], if c == "" then "" else c[1..]); }
    else if b != "" && c != "" { LessOrder(a, b[1..], c[1..]); }
    if a != "" && b != "" && a[0] == b[0] && a[1..] == b[1..] {
      assert a == [a[0]] + a[1..] == [b[0]] + b[1..] == b;
    }
  }
}
