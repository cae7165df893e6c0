/** The string operations the store builds its paths with: `split('.')`,
    `join('.')`, and the canonical decimal spelling that makes a property
    name an array index. */
module Paths {
  import opened Js

  /** The pieces of `s.split('.')`: the text before, between and after the dots. */
  function Split(s: string): (parts: seq<string>)
    ensures |parts| >= 1
    ensures forall i :: 0 <= i < |parts| ==> '.' !in parts[i]
  {
    if s == "" then [""]
    else
      var rest := Split(s[1..]);
      if s[0] == '.' then [""] + rest
      else [[s[0]] + rest[0]] + rest[1..]
  }

  /** `parts.join('.')`. */
  function Join(parts: seq<string>): (s: string)
    ensures |parts| >= 1 ==> parts[0] <= s
    ensures |parts| >= 2 ==> parts[0] + "." <= s
  {
    if |parts| == 0 then ""
    else if |parts| == 1 then parts[0]
    else parts[0] + "." + Join(parts[1..])
  }

  /** A string without dots is one piece. */
  lemma {:induction false} SplitNoDot(s: string)
    requires '.' !in s
    ensures Split(s) == [s]
  {
    if s != "" {
      assert '.' !in s[1..] by {
        forall i | 0 <= i < |s[1..]| ensures s[1..][i] != '.' { assert s[1..][i] == s[i + 1]; }
      }
      SplitNoDot(s[1..]);
      assert [s[0]] + s[1..] == s;
    }
  }

  /** Splitting at a dot splits the two sides separately. */
  lemma {:induction false} SplitConcat(a: string, b: string)
    ensures Split(a + "." + b) == Split(a) + Split(b)
  {
    var s := a + "." + b;
    if a == "" {
      assert s == "." + b;
      assert s[1..] == b;
    } else {
      assert s[0] == a[0];
      assert s[1..] == a[1..] + "." + b;
      SplitConcat(a[1..], b);
      var rest := Split(a[1..]);
      var tail := Split(s[1..]);
      assert tail == rest + Split(b);
      if a[0] == '.' {
        assert Split(s) == [""] + tail;
        assert Split(a) == [""] + rest;
      } else {
        assert Split(s) == [[a[0]] + tail[0]] + tail[1..];
        assert Split(a) == [[a[0]] + rest[0]] + rest[1..];
        assert tail[0] == rest[0];
        assert tail[1..] == rest[1..] + Split(b);
      }
    }
  }

  /** Joining what `split('.')` produced gives back the original string. */
  lemma {:induction false} JoinSplit(s: string)
    ensures Join(Split(s)) == s
  {
    if s != "" {
      var rest := Split(s[1..]);
      JoinSplit(s[1..]);
      if s[0] == '.' {
        assert Split(s) == [""] + rest;
        assert ([""] + rest)[1..] == rest;
        assert s == "." + s[1..];
      } else {
        var parts := Split(s);
        assert parts == [[s[0]] + rest[0]] + rest[1..];
        if |rest| == 1 {
          assert Join(parts) == [s[0]] + rest[0];
        } else {
          assert parts[1..] == rest[1..];
          assert Join(rest) == rest[0] + "." + Join(rest[1..]);
        }
        assert [s[0]] + s[1..] == s;
      }
    }
  }

  /** Splitting a join of dot-free pieces gives back the pieces. */
  lemma {:induction false} SplitJoin(parts: seq<string>)
    requires |parts| >= 1
    requires forall i :: 0 <= i < |parts| ==> '.' !in parts[i]
    ensures Split(Join(parts)) == parts
  {
    if |parts| == 1 {
      SplitNoDot(parts[0]);
    } else {
      SplitJoin(parts[1..]);
      SplitConcat(parts[0], Join(parts[1..]));
      SplitNoDot(parts[0]);
      assert [parts[0]] + parts[1..] == parts;
    }
  }

  predicate IsDigit(c: char) { '0' <= c <= '9' }

  predicate AllDigits(s: string) { forall i :: 0 <= i < |s| ==> IsDigit(s[i]) }

  /** The decimal value of a run of digits, most significant first. */
  function DigitsValue(s: string): nat
    requires AllDigits(s)
    decreases |s|
  {
    if s == "" then 0
    else 10 * DigitsValue(s[..|s| - 1]) + ((s[|s| - 1] as int) - ('0' as int))
  }

  /** A property name that names an array element: decimal digits without a
      leading zero (only "0" itself may start with '0'). */
  predicate IsIndexString(s: string)
  {
    |s| >= 1 && AllDigits(s) && (s[0] == '0' ==> |s| == 1)
  }

  /** The array index a property name denotes, if any. */
  function ParseIndex(key: string): Option<nat>
  {
    if IsIndexString(key) then Some(DigitsValue(key)) else None
  }

  /** `String(n)` for a natural number, as in `budgets.${id}`. */
  function IndexString(n: nat): (s: string)
    ensures IsIndexString(s)
    ensures s[0] == '0' ==> n == 0
    ensures '.' !in s
  {
    if n < 10 then [('0' as int + n) as char]
    else IndexString(n / 10) + [('0' as int + n % 10) as char]
  }

  /** The spelling of a natural number parses back to it. */
  lemma {:induction false} ParseIndexString(n: nat)
    ensures ParseIndex(IndexString(n)) == Some(n)
  {
    var s := IndexString(n);
    var c := s[|s| - 1];
    assert (c as int) - ('0' as int) == n % 10;
    if n < 10 {
      assert s[..0] == "";
      assert DigitsValue(s) == 10 * DigitsValue(s[..0]) + n % 10;
    } else {
      ParseIndexString(n / 10);
      assert s[..|s| - 1] == IndexString(n / 10);
      assert DigitsValue(s) == 10 * (n / 10) + n % 10;
    }
  }

  /** A name with a non-zero leading digit has a positive value. */
  lemma {:induction false} LeadingDigitPositive(s: string)
    requires |s| >= 1 && AllDigits(s) && s[0] != '0'
    ensures DigitsValue(s) >= 1
  {
    if |s| > 1 {
      var t := s[..|s| - 1];
      assert t[0] == s[0];
      LeadingDigitPositive(t);
    }
  }

  /** An index name is the spelling of its own value, so no two index names
      denote the same element. */
  lemma {:induction false} IndexStringOfValue(s: string)
    requires IsIndexString(s)
    ensures IndexString(DigitsValue(s)) == s
  {
    var d := (s[|s| - 1] as int) - ('0' as int);
    if |s| == 1 {
      assert DigitsValue(s[..0]) == 0;
    } else {
      var t := s[..|s| - 1];
      assert t[0] == s[0];
      assert IsIndexString(t);
      LeadingDigitPositive(t);
      IndexStringOfValue(t);
      var n := DigitsValue(s);
      assert n == 10 * DigitsValue(t) + d;
      assert n / 10 == DigitsValue(t) && n % 10 == d;
      assert t + [s[|s| - 1]] == s;
    }
  }

  lemma ParseIndexInjective(a: string, b: string)
    requires ParseIndex(a).Some? && ParseIndex(a) == ParseIndex(b)
    ensures a == b
  {
    IndexStringOfValue(a);
    IndexStringOfValue(b);
  }
}
