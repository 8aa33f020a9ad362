/** The string functions the program parses and prints with. */
module Text {
  import opened Options

  // ----- splitting and joining at a character -----

  /** The first position of `c`, or the length. */
  function Index(s: string, c: char): (i: nat)
    ensures i <= |s|
    ensures i < |s| ==> s[i] == c
  {
    if s == "" || s[0] == c then 0 else 1 + Index(s[1..], c)
  }

  lemma {:induction false} IndexFirst(s: string, c: char)
    ensures c !in s[..Index(s, c)]
    ensures Index(s, c) == |s| <==> c !in s
  {
    if s != "" && s[0] != c {
      IndexFirst(s[1..], c);
      var i := Index(s, c);
      assert s == [s[0]] + s[1..] && s[..i] == [s[0]] + s[1..][..i - 1];
    }
  }

  function Split(s: string, c: char): (parts: seq<string>)
    ensures parts != []
    decreases |s|
  {
    var i := Index(s, c);
    if i == |s| then [s] else [s[..i]] + Split(s[i + 1..], c)
  }

  function Join(parts: seq<string>, c: char): string {
    if parts == [] then ""
    else if |parts| == 1 then parts[0]
    else parts[0] + [c] + Join(parts[1..], c)
  }

  ghost predicate Free(parts: seq<string>, c: char) {
    forall i :: 0 <= i < |parts| ==> c !in parts[i]
  }

  lemma {:induction false} IndexCons(head: string, c: char, rest: string)
    requires c !in head
    ensures Index(head + [c] + rest, c) == |head|
  {
    var s := head + [c] + rest;
    if head != "" {
      assert s[0] == head[0] && head[0] in head;
      assert s[1..] == head[1..] + [c] + rest;
      IndexCons(head[1..], c, rest);
    }
  }

  /** The first piece ends at the first separator. */
  lemma {:induction false} SplitCons(head: string, c: char, rest: string)
    requires c !in head
    ensures Split(head + [c] + rest, c) == [head] + Split(rest, c)
  {
    var s := head + [c] + rest;
    IndexCons(head, c, rest);
    assert s[..|head|] == head && s[|head| + 1..] == rest;
  }

  /** Splitting yields pieces without separator ... */
  lemma {:induction false} SplitFree(s: string, c: char)
    ensures Free(Split(s, c), c)
    ensures |Split(s, c)| == 1 <==> c !in s
    decreases |s|
  {
    var i := Index(s, c);
    IndexFirst(s, c);
    if i < |s| {
      SplitFree(s[i + 1..], c);
    }
  }

  lemma {:induction false} JoinCons(head: string, parts: seq<string>, c: char)
    requires parts != []
    ensures Join([head] + parts, c) == head + [c] + Join(parts, c)
  {
  }

  /** ... that join to the text. */
  lemma {:induction false} JoinSplit(s: string, c: char)
    ensures Join(Split(s, c), c) == s
    decreases |s|
  {
    var i := Index(s, c);
    if i < |s| {
      var head, rest := s[..i], s[i + 1..];
      assert s == head + [c] + rest;
      assert Split(s, c) == [head] + Split(rest, c);
      JoinSplit(rest, c);
      JoinCons(head, Split(rest, c), c);
    }
  }

  /** Joining pieces without separator can be undone. */
  lemma {:induction false} SplitJoin(parts: seq<string>, c: char)
    requires parts != [] && Free(parts, c)
    ensures Split(Join(parts, c), c) == parts
  {
    if |parts| > 1 {
      SplitJoin(parts[1..], c);
      SplitCons(parts[0], c, Join(parts[1..], c));
    }
  }

  lemma {:induction false} FirstPiece(head: string, more: string, c: char)
    requires c !in head && (more == "" || more[0] == c)
    ensures Split(head + more, c)[0] == head
  {
    if more == "" {
      assert head + more == head;
      IndexFirst(head, c);
    } else {
      SplitCons(head, c, more[1..]);
      assert head + more == head + [c] + more[1..];
    }
  }

  lemma {:induction false} FirstTwo(first: string, second: string, more: string, c: char)
    requires c !in first && c !in second && (more == "" || more[0] == c)
    ensures var pieces := Split(first + [c] + (second + more), c);
            |pieces| >= 2 && pieces[0] == first && pieces[1] == second
  {
    SplitCons(first, c, second + more);
    FirstPiece(second, more, c);
  }

  /** What follows the first piece: nothing, or a separator and the text of the other pieces. */
  lemma {:induction false} FirstRest(s: string, c: char) returns (more: string)
    ensures s == Split(s, c)[0] + more && c !in Split(s, c)[0]
    ensures more == "" || more[0] == c
    ensures |Split(s, c)| > 1 ==> more != "" && Split(s, c)[1..] == Split(more[1..], c)
  {
    var i := Index(s, c);
    IndexFirst(s, c);
    more := s[i..];
    assert s == s[..i] + s[i..];
    if i < |s| {
      assert s[i..][1..] == s[i + 1..];
    }
  }

  // ----- white space -----

  /** The characters Go's `unicode.IsSpace` accepts. */
  predicate IsSpace(c: char) {
    || '\U{9}' <= c <= '\U{d}' || c == ' ' || c == '\U{85}' || c == '\U{a0}' || c == '\U{1680}'
    || '\U{2000}' <= c <= '\U{200a}' || c == '\U{2028}' || c == '\U{2029}' || c == '\U{202f}'
    || c == '\U{205f}' || c == '\U{3000}'
  }

  predicate Trimmed(s: string) {
    s == "" || (!IsSpace(s[0]) && !IsSpace(s[|s| - 1]))
  }

  function TrimSpace(s: string): (r: string)
    ensures Trimmed(r)
    ensures Trimmed(s) ==> r == s
    ensures forall c :: c in r ==> c in s
    decreases |s|
  {
    if s == "" then ""
    else if IsSpace(s[0]) then TrimSpace(s[1..])
    else if IsSpace(s[|s| - 1]) then TrimSpace(s[..|s| - 1])
    else s
  }

  predicate AllSpace(s: string) {
    forall c :: c in s ==> IsSpace(c)
  }

  /** `s` is `t` with white space around it. */
  ghost predicate Padded(s: string, left: string, t: string, right: string) {
    s == left + t + right && AllSpace(left) && AllSpace(right)
  }

  lemma {:induction false} MoreSpace(c: char, s: string, left: string, t: string, right: string)
    requires IsSpace(c) && Padded(s, left, t, right)
    ensures Padded([c] + s, [c] + left, t, right) && Padded(s + [c], left, t, right + [c])
  {
  }

  /** Nothing but white space is cut off, and only at the ends. */
  lemma {:induction false} TrimSpaceCuts(s: string) returns (left: string, right: string)
    ensures Padded(s, left, TrimSpace(s), right)
    decreases |s|
  {
    left, right := "", "";
    if s != "" && IsSpace(s[0]) {
      var l, r := TrimSpaceCuts(s[1..]);
      MoreSpace(s[0], s[1..], l, TrimSpace(s[1..]), r);
      assert s == [s[0]] + s[1..];
      left, right := [s[0]] + l, r;
    } else if s != "" && IsSpace(s[|s| - 1]) {
      var n := |s| - 1;
      var l, r := TrimSpaceCuts(s[..n]);
      MoreSpace(s[n], s[..n], l, TrimSpace(s[..n]), r);
      assert s == s[..n] + [s[n]];
      left, right := l, r + [s[n]];
    }
  }

  /** Padding is cut off. */
  lemma {:induction false} TrimPadded(left: string, s: string, right: string)
    requires AllSpace(left) && AllSpace(right) && Trimmed(s)
    ensures TrimSpace(left + s + right) == s
    decreases |left| + |right|
  {
    var t := left + s + right;
    if left != "" {
      assert t[0] == left[0] && left[0] in left && t[1..] == left[1..] + s + right;
      TrimPadded(left[1..], s, right);
    } else if right != "" {
      var n := |right| - 1;
      assert t[|t| - 1] == right[n] && right[n] in right && t[..|t| - 1] == left + s + right[..n];
      TrimPadded(left, s, right[..n]);
      if s == "" {
        assert t == right && right[0] in right;
        TrimSpaces(right);
      }
    } else {
      assert t == s;
    }
  }

  lemma {:induction false} TrimSpaces(s: string)
    requires AllSpace(s)
    ensures TrimSpace(s) == ""
  {
    if s != "" {
      assert s[0] in s;
      TrimSpaces(s[1..]);
    }
  }

  // ----- decimal numbers -----

  predicate IsDigit(c: char) {
    '0' <= c <= '9'
  }

  predicate AllDigits(s: string) {
    forall i :: 0 <= i < |s| ==> IsDigit(s[i])
  }

  function Digits(n: nat): (s: string)
    ensures s != "" && AllDigits(s)
  {
    if n < 10 then ['0' + n as char] else Digits(n / 10) + ['0' + (n % 10) as char]
  }

  function Value(s: string): nat
    requires AllDigits(s)
  {
    if s == "" then 0 else 10 * Value(s[..|s| - 1]) + (s[|s| - 1] - '0') as nat
  }

  lemma {:induction false} ValueDigits(n: nat)
    ensures Value(Digits(n)) == n
  {
    if n >= 10 {
      ValueDigits(n / 10);
      var s := Digits(n);
      assert s[..|s| - 1] == Digits(n / 10);
    } else {
      assert Digits(n)[..0] == "";
    }
  }

  const MIN_INT := -0x8000_0000_0000_0000
  const MAX_INT := 0x7fff_ffff_ffff_ffff

  /** A Go `int` on a 64-bit machine. */
  type Int = n: int | MIN_INT <= n <= MAX_INT witness 0

  function Itoa(n: int): string {
    if n < 0 then "-" + Digits(-n) else Digits(n)
  }

  /** An optional sign and at least one digit, within the range of `int`. */
  function Atoi(s: string): Option<Int> {
    var signed := s != "" && (s[0] == '-' || s[0] == '+');
    var body := if signed then s[1..] else s;
    if body == "" || !AllDigits(body) then None
    else
      var n: int := if signed && s[0] == '-' then -(Value(body) as int) else Value(body);
      if MIN_INT <= n <= MAX_INT then Some(n) else None
  }

  lemma {:induction false} AtoiItoa(n: Int)
    ensures Atoi(Itoa(n)) == Some(n)
  {
    if n < 0 {
      var k: int := n;
      ValueDigits(-k);
      assert Itoa(n)[1..] == Digits(-k);
    } else {
      ValueDigits(n);
      assert IsDigit(Digits(n)[0]);
    }
  }

  /** The ends and the characters of a printed number. */
  lemma {:induction false} ItoaChars(n: int)
    ensures Itoa(n) != ""
    ensures forall i :: 0 <= i < |Itoa(n)| ==> IsDigit(Itoa(n)[i]) || Itoa(n)[i] == '-'
  {
  }

  ghost predicate AllZeros(s: string) {
    forall c :: c in s ==> c == '0'
  }

  /** Digits are the digits of their value behind zeros. */
  lemma {:induction false} DigitsOfValue(s: string) returns (zeros: string)
    requires s != "" && AllDigits(s)
    ensures AllZeros(zeros) && s == zeros + Digits(Value(s))
  {
    var n := |s| - 1;
    var d := (s[n] - '0') as nat;
    assert s == s[..n] + [s[n]] && IsDigit(s[n]) && '0' + d as char == s[n];
    zeros := "";
    if n > 0 {
      zeros := DigitsOfValue(s[..n]);
      var v := Value(s[..n]);
      if v == 0 {
        assert Digits(v) == ['0'] && Digits(d) == [s[n]];
        zeros := zeros + ['0'];
      } else {
        assert (10 * v + d) / 10 == v && (10 * v + d) % 10 == d;
        assert Digits(10 * v + d) == Digits(v) + [s[n]];
      }
    } else {
      assert s[..n] == "" && Value(s) == d;
    }
  }

  lemma {:induction false} ValueOfZeros(zeros: string, n: nat)
    requires AllZeros(zeros)
    ensures AllDigits(zeros + Digits(n)) && Value(zeros + Digits(n)) == n
  {
    assert forall i :: 0 <= i < |zeros| ==> zeros[i] in zeros;
    ValueDigits(n);
    ValueConcat(zeros, Digits(n));
  }

  lemma {:induction false} ValueConcat(zeros: string, s: string)
    requires AllZeros(zeros) && AllDigits(s)
    ensures AllDigits(zeros + s) && Value(zeros + s) == Value(s)
    decreases |zeros| + |s|
  {
    assert forall i :: 0 <= i < |zeros| ==> zeros[i] in zeros;
    var t := zeros + s;
    if s != "" {
      assert t[..|t| - 1] == zeros + s[..|s| - 1];
      ValueConcat(zeros, s[..|s| - 1]);
    } else if zeros != "" {
      var n := |zeros| - 1;
      assert t == zeros && zeros[..n] + "" == zeros[..n];
      ValueConcat(zeros[..n], "");
    }
  }

  /** `s` writes the number `n`: its digits, possibly behind zeros, behind a sign that may be left out unless the
      number is negative. */
  ghost predicate Writes(s: string, n: int) {
    exists sign, zeros :: WritesWith(s, sign, zeros, n)
  }

  ghost predicate WritesWith(s: string, sign: string, zeros: string, n: int) {
    && AllZeros(zeros)
    && s == sign + zeros + Digits(if n < 0 then -n else n)
    && if n < 0 then sign == "-" else sign in {"", "+"} || (sign == "-" && n == 0)
  }

  /** A text is accepted exactly if it writes a number in the range of `int`, and is that number. */
  lemma {:induction false} AtoiExact(s: string, n: Int)
    ensures Atoi(s) == Some(n) <==> Writes(s, n)
  {
    if Atoi(s) == Some(n) {
      AtoiWrites(s, n);
    }
    if Writes(s, n) {
      var sign, zeros :| WritesWith(s, sign, zeros, n);
      AtoiWritten(s, sign, zeros, n);
    }
  }

  lemma {:induction false} AtoiWrites(s: string, n: Int)
    requires Atoi(s) == Some(n)
    ensures Writes(s, n)
  {
    if s[0] == '-' || s[0] == '+' {
      var zeros := DigitsOfValue(s[1..]);
      var sign := [s[0]];
      assert s == sign + s[1..];
      assert s == sign + zeros + Digits(Value(s[1..]));
      assert WritesWith(s, sign, zeros, n);
    } else {
      var zeros := DigitsOfValue(s);
      assert s == "" + zeros + Digits(Value(s));
      assert WritesWith(s, "", zeros, n);
    }
  }

  lemma {:induction false} AtoiPlain(body: string)
    requires body != "" && AllDigits(body) && Value(body) <= MAX_INT
    ensures Atoi(body) == Some(Value(body))
  {
    assert IsDigit(body[0]);
  }

  lemma {:induction false} AtoiSigned(sign: char, body: string, n: Int)
    requires body != "" && AllDigits(body)
    requires (sign == '+' && n == Value(body)) || (sign == '-' && n == -(Value(body) as int))
    ensures Atoi([sign] + body) == Some(n)
  {
    assert ([sign] + body)[1..] == body;
  }

  lemma {:induction false} AtoiWritten(s: string, sign: string, zeros: string, n: Int)
    requires WritesWith(s, sign, zeros, n)
    ensures Atoi(s) == Some(n)
  {
    var m: int := n;
    var abs: nat := if m < 0 then -m else m;
    var body := zeros + Digits(abs);
    ValueOfZeros(zeros, abs);
    assert s == sign + body;
    if sign == "" {
      assert s == body;
      AtoiPlain(body);
    } else {
      AtoiSigned(sign[0], body, n);
      assert sign == [sign[0]];
    }
  }
}
