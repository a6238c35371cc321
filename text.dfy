/**
 * The two JavaScript string operations the country parser relies on:
 * `String.prototype.split` with a one-character separator, and `parseInt` on a token.
 */
module Text {
  import opened Errors

  /**
   * `s.split(sep)`: the maximal pieces between separators, including empty pieces
   * around adjacent or trailing separators; never an empty list.
   */
  function Split(s: string, sep: char): (parts: seq<string>)
    ensures |parts| >= 1
    ensures forall i :: 0 <= i < |parts| ==> sep !in parts[i]
  {
    if |s| == 0 then [""]
    else
      var rest := Split(s[1..], sep);
      if s[0] == sep then [""] + rest
      else [[s[0]] + rest[0]] + rest[1..]
  }

  /** `parts.join(sep)`: the inverse of `Split`. */
  function Join(parts: seq<string>, sep: char): string
    requires |parts| >= 1
  {
    if |parts| == 1 then parts[0] else parts[0] + [sep] + Join(parts[1..], sep)
  }

  /** Joining the pieces of a split gives back the original string. */
  lemma {:induction false} JoinSplit(s: string, sep: char)
    ensures Join(Split(s, sep), sep) == s
  {
    if |s| > 0 {
      var rest := Split(s[1..], sep);
      JoinSplit(s[1..], sep);
      if s[0] != sep {
        if |rest| > 1 {
          assert rest == [rest[0]] + rest[1..];
        }
      }
    }
  }

  /** A piece with no separator splits into itself. */
  lemma {:induction false} SplitPiece(w: string, sep: char)
    requires sep !in w
    ensures Split(w, sep) == [w]
  {
    if |w| > 0 {
      SplitPiece(w[1..], sep);
      assert w[0] in w;
      assert [w[0]] + w[1..] == w;
    }
  }

  /** A leading piece followed by a separator splits off as the first element. */
  lemma {:induction false} SplitFirst(w: string, sep: char, rest: string)
    requires sep !in w
    ensures Split(w + [sep] + rest, sep) == [w] + Split(rest, sep)
  {
    if |w| == 0 {
      assert w + [sep] + rest == [sep] + rest;
      assert ([sep] + rest)[1..] == rest;
    } else {
      SplitFirst(w[1..], sep, rest);
      assert w[0] in w;
      assert (w + [sep] + rest)[0] == w[0];
      assert (w + [sep] + rest)[1..] == w[1..] + [sep] + rest;
      assert [w[0]] + w[1..] == w;
    }
  }

  /** Splitting a join of separator-free pieces gives back the pieces. */
  lemma {:induction false} SplitJoin(parts: seq<string>, sep: char)
    requires |parts| >= 1
    requires forall i :: 0 <= i < |parts| ==> sep !in parts[i]
    ensures Split(Join(parts, sep), sep) == parts
  {
    if |parts| == 1 {
      SplitPiece(parts[0], sep);
    } else {
      SplitJoin(parts[1..], sep);
      SplitFirst(parts[0], sep, Join(parts[1..], sep));
    }
  }

  /**
   * JavaScript's `length` of a string: the number of UTF-16 code units, so a character
   * outside the Basic Multilingual Plane (a code point of 0x10000 or more) counts twice.
   */
  function Utf16Length(s: string): (n: nat)
    ensures |s| <= n <= 2 * |s|
  {
    if s == [] then 0 else Utf16Length(s[..|s| - 1]) + (if s[|s| - 1] as int >= 0x1_0000 then 2 else 1)
  }

  /** Within the Basic Multilingual Plane the UTF-16 length is the number of characters. */
  lemma {:induction false} Utf16LengthBmp(s: string)
    requires forall i :: 0 <= i < |s| ==> s[i] as int < 0x1_0000
    ensures Utf16Length(s) == |s|
  {
    if s != [] {
      Utf16LengthBmp(s[..|s| - 1]);
    }
  }

  /** A string made only of characters outside the Basic Multilingual Plane is twice as long in UTF-16. */
  lemma {:induction false} Utf16LengthAstral(s: string)
    requires forall i :: 0 <= i < |s| ==> s[i] as int >= 0x1_0000
    ensures Utf16Length(s) == 2 * |s|
  {
    if s != [] {
      Utf16LengthAstral(s[..|s| - 1]);
    }
  }

  predicate IsDigit(ch: char)
  {
    '0' as int <= ch as int <= '9' as int
  }

  /** A non-empty run of decimal digits: the only tokens this model lets `parseInt` read. */
  predicate IsDecimal(token: string)
  {
    |token| > 0 && forall i :: 0 <= i < |token| ==> IsDigit(token[i])
  }

  function DigitsValue(token: string): nat
    requires forall i :: 0 <= i < |token| ==> IsDigit(token[i])
  {
    if |token| == 0 then 0
    else
      var last := token[|token| - 1];
      assert IsDigit(last);
      10 * DigitsValue(token[..|token| - 1]) + (last as int - '0' as int)
  }

  /** `parseInt(token)` on a decimal token; `None` stands for `NaN`. */
  function ParseInt(token: string): Option<int>
  {
    if IsDecimal(token) then Some(DigitsValue(token)) else None
  }

  /** The decimal numeral of `n`, without leading zeros. */
  function Decimal(n: nat): (s: string)
    ensures IsDecimal(s)
  {
    if n < 10 then [('0' as int + n) as char]
    else Decimal(n / 10) + [('0' as int + n % 10) as char]
  }

  /** `parseInt` reads back every numeral `Decimal` writes. */
  lemma {:induction false} ParseDecimal(n: nat)
    ensures ParseInt(Decimal(n)) == Some(n)
  {
    if n >= 10 {
      ParseDecimal(n / 10);
      var s := Decimal(n);
      assert s[..|s| - 1] == Decimal(n / 10);
      assert s[|s| - 1] as int - '0' as int == n % 10;
      assert DigitsValue(s) == 10 * (n / 10) + n % 10;
    }
  }
}
