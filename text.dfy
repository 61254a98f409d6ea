/** The pieces of Go's `strings`, `strconv` and `fmt` packages the agent
    relies on: byte-wise key order, `strings.HasPrefix`, `strings.Split`,
    `strings.Join`, `fmt.Sprintf("%d")` and `strconv.Atoi`.

    Strings are sequences of Unicode scalar values. Comparing them code point
    by code point gives the same order as comparing their UTF-8 bytes, so
    `Less` is the order in which the key/value store keeps its keys. */
module Text {
  import opened Wrappers

  // ---------------------------------------------------------------------
  // Byte-wise order

  /** `a` sorts strictly before `b` when compared byte by byte. */
  predicate Less(a: string, b: string)
  {
    if |b| == 0 then false
    else if |a| == 0 then true
    else if a[0] != b[0] then a[0] < b[0]
    else Less(a[1..], b[1..])
  }

  lemma {:induction false} LessIrreflexive(a: string)
    ensures !Less(a, a)
  {
    if |a| > 0 {
      LessIrreflexive(a[1..]);
    }
  }

  lemma {:induction false} LessAsymmetric(a: string, b: string)
    ensures Less(a, b) ==> !Less(b, a)
  {
    if |a| > 0 && |b| > 0 && a[0] == b[0] {
      LessAsymmetric(a[1..], b[1..]);
    }
  }

  lemma {:induction false} LessTransitive(a: string, b: string, c: string)
    requires Less(a, b) && Less(b, c)
    ensures Less(a, c)
  {
    if |a| > 0 && a[0] == b[0] && b[0] == c[0] {
      LessTransitive(a[1..], b[1..], c[1..]);
    }
  }

  lemma {:induction false} LessTotal(a: string, b: string)
    ensures a == b || Less(a, b) || Less(b, a)
  {
    if |a| > 0 && |b| > 0 && a[0] == b[0] {
      LessTotal(a[1..], b[1..]);
      if a[1..] == b[1..] {
        assert a == [a[0]] + a[1..] && b == [b[0]] + b[1..];
      }
    }
  }

  /** A proper prefix sorts before the longer key. */
  lemma {:induction false} PrefixIsLess(p: string, s: string)
    requires |p| < |s| && s[..|p|] == p
    ensures Less(p, s)
  {
    if |p| > 0 {
      assert s[1..][..|p| - 1] == p[1..];
      PrefixIsLess(p[1..], s[1..]);
    }
  }

  // ---------------------------------------------------------------------
  // Prefixes

  predicate HasPrefix(s: string, prefix: string)
  {
    |prefix| <= |s| && s[..|prefix|] == prefix
  }

  /** strings.TrimPrefix */
  function TrimPrefix(s: string, prefix: string): (r: string)
    ensures HasPrefix(s, prefix) ==> prefix + r == s
    ensures !HasPrefix(s, prefix) ==> r == s
  {
    if HasPrefix(s, prefix) then
      assert s == s[..|prefix|] + s[|prefix|..];
      s[|prefix|..]
    else s
  }

  // ---------------------------------------------------------------------
  // Decimal numbers: fmt's %d and strconv.Atoi

  predicate IsDigit(c: char)
  {
    '0' <= c <= '9'
  }

  predicate AllDigits(s: string)
  {
    forall i :: 0 <= i < |s| ==> IsDigit(s[i])
  }

  function DigitChar(d: nat): (c: char)
    requires d < 10
    ensures IsDigit(c) && (c as int) - ('0' as int) == d
  {
    "0123456789"[d]
  }

  /** fmt.Sprintf("%d", n) for a non-negative n. */
  function NatToString(n: nat): string
    decreases n
  {
    if n < 10 then [DigitChar(n)] else NatToString(n / 10) + [DigitChar(n % 10)]
  }

  /** fmt.Sprintf("%d", i). */
  function IntToString(i: int): string
  {
    if i < 0 then "-" + NatToString(-i) else NatToString(i)
  }

  /** The value of a string of decimal digits (leading zeros allowed). */
  function DigitsValue(s: string): nat
    requires AllDigits(s)
  {
    if s == [] then 0
    else DigitsValue(s[..|s| - 1]) * 10 + ((s[|s| - 1] as int) - ('0' as int))
  }

  const MinInt64: int := -0x8000_0000_0000_0000
  const MaxInt64: int := 0x7FFF_FFFF_FFFF_FFFF

  predicate InInt64(i: int)
  {
    MinInt64 <= i <= MaxInt64
  }

  /** Go's `int` on a 64-bit platform. */
  type int64 = i: int | MinInt64 <= i <= MaxInt64

  /** The syntax strconv.Atoi accepts: an optional sign, then one or more
      decimal digits. */
  predicate AtoiSyntax(s: string)
  {
    var body := if |s| > 0 && (s[0] == '-' || s[0] == '+') then s[1..] else s;
    |body| > 0 && AllDigits(body)
  }

  /** The text of strconv.Atoi's error for `s` (the escaping strconv.Quote
      applies to unusual characters is not modelled). */
  function AtoiError(s: string): string
  {
    "strconv.Atoi: parsing \"" + s + "\": " + (if AtoiSyntax(s) then "value out of range" else "invalid syntax")
  }

  /** strconv.Atoi on a 64-bit platform (also strconv.ParseInt(s, 10, 64)):
      an optional sign, then one or more decimal digits, and a value that
      fits in 64 bits. Anything else is an error. */
  function Atoi(s: string): Option<int>
  {
    var signed := |s| > 0 && (s[0] == '-' || s[0] == '+');
    var body := if signed then s[1..] else s;
    if |body| == 0 || !AllDigits(body) then None
    else
      var v: int := if signed && s[0] == '-' then -(DigitsValue(body) as int) else DigitsValue(body);
      if InInt64(v) then Some(v) else None
  }

  lemma {:induction false} NatToStringDigits(n: nat)
    ensures |NatToString(n)| > 0 && AllDigits(NatToString(n))
    ensures DigitsValue(NatToString(n)) == n
    decreases n
  {
    if n >= 10 {
      NatToStringDigits(n / 10);
      var s := NatToString(n);
      assert s[..|s| - 1] == NatToString(n / 10);
    }
  }

  /** Parsing what %d printed gives the number back. */
  lemma AtoiIntToString(i: int)
    requires InInt64(i)
    ensures Atoi(IntToString(i)) == Some(i)
  {
    if i < 0 {
      NatToStringDigits(-i);
      AtoiNegative(NatToString(-i));
    } else {
      NatToStringDigits(i);
      AtoiDigits(NatToString(i));
    }
  }

  /** Atoi of a digit string whose value fits. */
  lemma AtoiDigits(digits: string)
    requires |digits| > 0 && AllDigits(digits) && DigitsValue(digits) <= MaxInt64
    ensures Atoi(digits) == Some(DigitsValue(digits))
  {
    assert IsDigit(digits[0]);
  }

  /** Atoi of '-' and a digit string whose negated value fits. */
  lemma AtoiNegative(digits: string)
    requires |digits| > 0 && AllDigits(digits) && -(DigitsValue(digits) as int) >= MinInt64
    ensures Atoi("-" + digits) == Some(-(DigitsValue(digits) as int))
  {
    var s := "-" + digits;
    assert s[0] == '-';
    assert s[1..] == digits;
  }

  lemma NatToStringInjective(a: nat, b: nat)
    requires NatToString(a) == NatToString(b)
    ensures a == b
  {
    NatToStringDigits(a);
    NatToStringDigits(b);
  }

  lemma NatToStringNoChar(n: nat, c: char)
    requires !IsDigit(c)
    ensures c !in NatToString(n)
  {
    NatToStringDigits(n);
  }

  lemma IntToStringNoChar(i: int, c: char)
    requires !IsDigit(c) && c != '-'
    ensures c !in IntToString(i)
  {
    if i < 0 {
      NatToStringNoChar(-i, c);
      var s := "-" + NatToString(-i);
      forall k | 0 <= k < |s|
        ensures s[k] != c
      {
        if k > 0 {
          assert s[k] == NatToString(-i)[k - 1];
        }
      }
    } else {
      NatToStringNoChar(i, c);
    }
  }

  // ---------------------------------------------------------------------
  // strings.Split and strings.Join with a one-character separator

  /** strings.Split(s, string(sep)): never empty; "" splits into [""]. */
  function Split(s: string, sep: char): (parts: seq<string>)
    ensures |parts| >= 1
  {
    if s == [] then [""]
    else
      var rest := Split(s[1..], sep);
      if s[0] == sep then [""] + rest
      else [[s[0]] + rest[0]] + rest[1..]
  }

  /** strings.Join */
  function Join(parts: seq<string>, sep: string): string
  {
    if parts == [] then ""
    else if |parts| == 1 then parts[0]
    else parts[0] + sep + Join(parts[1..], sep)
  }

  /** How many times `c` occurs in `s`. */
  function Occurrences(s: string, c: char): nat
  {
    if s == [] then 0 else (if s[0] == c then 1 else 0) + Occurrences(s[1..], c)
  }

  /** Joining the pieces with the separator gives back the original text. */
  lemma {:induction false} JoinSplit(s: string, sep: char)
    ensures Join(Split(s, sep), [sep]) == s
  {
    if s != [] {
      var rest := Split(s[1..], sep);
      JoinSplit(s[1..], sep);
      if s[0] == sep {
        assert ([""] + rest)[1..] == rest;
        assert s == [sep] + s[1..];
      } else {
        var parts := [[s[0]] + rest[0]] + rest[1..];
        if |rest| == 1 {
          assert s == [s[0]] + s[1..];
        } else {
          assert parts[1..] == rest[1..];
          assert Join(rest, [sep]) == rest[0] + [sep] + Join(rest[1..], [sep]);
          assert s == [s[0]] + s[1..];
        }
      }
    }
  }

  /** No piece contains the separator, and there is one more piece than
      separators. */
  lemma {:induction false} SplitPieces(s: string, sep: char)
    ensures |Split(s, sep)| == Occurrences(s, sep) + 1
    ensures forall k :: 0 <= k < |Split(s, sep)| ==> sep !in Split(s, sep)[k]
  {
    if s != [] {
      SplitPieces(s[1..], sep);
      var rest := Split(s[1..], sep);
      if s[0] != sep {
        var parts := Split(s, sep);
        forall k | 0 <= k < |parts|
          ensures sep !in parts[k]
        {
          if k > 0 {
            assert parts[k] == rest[k];
          }
        }
      }
    }
  }

  /** The first piece is the text before the first separator. */
  lemma SplitFirst(s: string, sep: char)
    ensures HasPrefix(s, Split(s, sep)[0]) && sep !in Split(s, sep)[0]
    ensures sep in s ==> |Split(s, sep)[0]| < |s| && s[|Split(s, sep)[0]|] == sep
    ensures sep !in s ==> Split(s, sep) == [s]
  {
    SplitFirstPrefix(s, sep);
    SplitFirstSep(s, sep);
    SplitWithoutSep(s, sep);
  }

  /** The first piece is a separator-free prefix. */
  lemma {:induction false} SplitFirstPrefix(s: string, sep: char)
    ensures HasPrefix(s, Split(s, sep)[0]) && sep !in Split(s, sep)[0]
  {
    if s != [] && s[0] != sep {
      var tail := s[1..];
      SplitFirstPrefix(tail, sep);
      SplitNonSep(s, sep);
      var rest := Split(tail, sep);
      assert s == [s[0]] + tail;
      assert s[..1 + |rest[0]|] == [s[0]] + tail[..|rest[0]|];
    }
  }

  /** When the separator occurs, the first piece stops just before it. */
  lemma {:induction false} SplitFirstSep(s: string, sep: char)
    ensures sep in s ==> |Split(s, sep)[0]| < |s| && s[|Split(s, sep)[0]|] == sep
  {
    if s != [] && s[0] != sep && sep in s {
      var tail := s[1..];
      assert s == [s[0]] + tail;
      assert sep in tail;
      SplitFirstSep(tail, sep);
      SplitNonSep(s, sep);
      assert s[1 + |Split(tail, sep)[0]|] == tail[|Split(tail, sep)[0]|];
    }
  }

  /** Without the separator there is one piece, the whole string. */
  lemma {:induction false} SplitWithoutSep(s: string, sep: char)
    ensures sep !in s ==> Split(s, sep) == [s]
  {
    if s != [] && sep !in s {
      assert s == [s[0]] + s[1..];
      assert sep !in s[1..];
      SplitWithoutSep(s[1..], sep);
      SplitNonSep(s, sep);
    }
  }

  /** Split of a string that does not start with the separator. */
  lemma SplitNonSep(s: string, sep: char)
    requires s != [] && s[0] != sep
    ensures Split(s, sep)[0] == [s[0]] + Split(s[1..], sep)[0]
    ensures Split(s[1..], sep) == [s[1..]] ==> Split(s, sep) == [s]
  {
    assert s == [s[0]] + s[1..];
  }

  /** Two separator-free pieces joined by one separator split back. */
  lemma {:induction false} SplitTwo(a: string, b: string, sep: char)
    requires sep !in a && sep !in b
    ensures Split(a + [sep] + b, sep) == [a, b]
  {
    SplitFirst(b, sep);
    if a == [] {
      assert a + [sep] + b == [sep] + b;
    } else {
      SplitTwo(a[1..], b, sep);
      var s := a + [sep] + b;
      assert s[1..] == a[1..] + [sep] + b;
      assert [s[0]] + a[1..] == a;
    }
  }

  /** A separator-free first piece followed by the separator splits off. */
  lemma {:induction false} SplitCons(a: string, rest: string, sep: char)
    requires sep !in a
    ensures Split(a + [sep] + rest, sep) == [a] + Split(rest, sep)
  {
    if a == [] {
      assert a + [sep] + rest == [sep] + rest;
    } else {
      SplitCons(a[1..], rest, sep);
      var s := a + [sep] + rest;
      assert s[1..] == a[1..] + [sep] + rest;
      assert [s[0]] + a[1..] == a;
    }
  }

  /** Separator-free pieces joined by the separator split back into the
      same pieces. */
  lemma {:induction false} SplitJoin(parts: seq<string>, sep: char)
    requires |parts| >= 1
    requires forall k :: 0 <= k < |parts| ==> sep !in parts[k]
    ensures Split(Join(parts, [sep]), sep) == parts
  {
    if |parts| == 1 {
      SplitFirst(parts[0], sep);
    } else {
      SplitJoin(parts[1..], sep);
      SplitCons(parts[0], Join(parts[1..], [sep]), sep);
      assert [parts[0]] + parts[1..] == parts;
    }
  }

  /** A text with exactly one separator splits into the part before it
      and the part after it. */
  lemma SplitOnce(s: string, sep: char)
    requires Occurrences(s, sep) == 1
    ensures |Split(s, sep)| == 2
    ensures var k := |Split(s, sep)[0]|;
      k < |s| && s[k] == sep && Split(s, sep) == [s[..k], s[k + 1..]]
  {
    var parts := Split(s, sep);
    SplitPieces(s, sep);
    SplitFirst(s, sep);
    JoinSplit(s, sep);
    assert Join(parts, [sep]) == parts[0] + [sep] + parts[1];
    var k := |parts[0]|;
    assert s[..k] == parts[0];
    assert s[k + 1..] == parts[1];
  }
}
