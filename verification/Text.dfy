/** Splitting, joining and decimal numbers, as the record parsers use them. */
module Text {
  import opened Wrappers

  predicate IsBytes(s: string) {
    forall i :: 0 <= i < |s| ==> s[i] as int < 256
  }

  // `str::split`: every separator ends a field, so there is always at least one field.
  function Split<T(==)>(s: seq<T>, separator: T): (fields: seq<seq<T>>)
    ensures |fields| > 0
  {
    if s == [] then
      [[]]
    else
      var rest := Split(s[1..], separator);
      if s[0] == separator then [[]] + rest else [[s[0]] + rest[0]] + rest[1..]
  }

  function Join<T>(fields: seq<seq<T>>, separator: T): seq<T>
    requires |fields| > 0
  {
    if |fields| == 1 then fields[0] else fields[0] + [separator] + Join(fields[1..], separator)
  }

  predicate FreeOf<T(==)>(fields: seq<seq<T>>, separator: T) {
    forall i :: 0 <= i < |fields| ==> separator !in fields[i]
  }

  lemma {:induction false} SplitPlain<T>(field: seq<T>, separator: T)
    requires separator !in field
    ensures Split(field, separator) == [field]
  {
    if field == [] {
    } else {
      SplitPlain(field[1..], separator);
      assert field[0] != separator && [field[0]] + field[1..] == field;
    }
  }

  lemma {:induction false} SplitAfterField<T>(field: seq<T>, rest: seq<T>, separator: T)
    requires separator !in field
    ensures Split(field + [separator] + rest, separator) == [field] + Split(rest, separator)
  {
    var s := field + [separator] + rest;
    if field == [] {
      assert s[1..] == rest;
    } else {
      assert s[1..] == field[1..] + [separator] + rest;
      SplitAfterField(field[1..], rest, separator);
      assert field[0] != separator && [field[0]] + field[1..] == field;
    }
  }

  lemma {:induction false} JoinLast<T>(fields: seq<seq<T>>, separator: T)
    requires |fields| > 1
    ensures var last := |fields| - 1;
            Join(fields, separator) == Join(fields[..last], separator) + [separator] + fields[last]
  {
    var last := |fields| - 1;
    if last == 1 {
      assert fields[1..] == [fields[1]] && fields[..1] == [fields[0]];
    } else {
      var rest := fields[1..];
      JoinLast(rest, separator);
      assert rest[..last - 1] == fields[..last][1..];
      Regroup(fields[0] + [separator], Join(rest[..last - 1], separator), [separator], fields[last]);
    }
  }

  // Fields without the separator survive joining and splitting.
  lemma {:induction false} SplitJoin<T>(fields: seq<seq<T>>, separator: T)
    requires |fields| > 0 && FreeOf(fields, separator)
    ensures Split(Join(fields, separator), separator) == fields
  {
    if |fields| == 1 {
      SplitPlain(fields[0], separator);
    } else {
      SplitJoin(fields[1..], separator);
      SplitAfterField(fields[0], Join(fields[1..], separator), separator);
    }
  }

  // Splitting loses nothing.
  lemma {:induction false} JoinSplit<T>(s: seq<T>, separator: T)
    ensures Join(Split(s, separator), separator) == s
    ensures FreeOf(Split(s, separator), separator)
  {
    if s == [] {
    } else {
      JoinSplit(s[1..], separator);
      var rest := Split(s[1..], separator);
      if s[0] == separator {
        assert Split(s, separator)[1..] == rest;
      } else {
        var fields := Split(s, separator);
        assert fields[1..] == rest[1..];
        if |rest| > 1 {
          assert fields[0] + [separator] + Join(rest[1..], separator)
              == [s[0]] + (rest[0] + [separator] + Join(rest[1..], separator));
        }
      }
    }
  }

  /* ---------------- concatenation ---------------- */

  function Flatten<T>(chunks: seq<seq<T>>): seq<T> {
    if chunks == [] then [] else chunks[0] + Flatten(chunks[1..])
  }

  lemma {:induction false} FlattenAppend<T>(a: seq<seq<T>>, b: seq<seq<T>>)
    ensures Flatten(a + b) == Flatten(a) + Flatten(b)
  {
    if a == [] {
      assert a + b == b;
    } else {
      assert (a + b)[1..] == a[1..] + b;
      FlattenAppend(a[1..], b);
    }
  }

  /* ---------------- decimal numbers ---------------- */

  predicate IsDigit(c: char) {
    '0' <= c <= '9'
  }

  predicate AllDigits(s: string) {
    forall i :: 0 <= i < |s| ==> IsDigit(s[i])
  }

  function Decimal(n: nat): (s: string)
    ensures |s| > 0 && AllDigits(s)
  {
    var digit := ['0' + (n % 10) as char];
    if n < 10 then digit else Decimal(n / 10) + digit
  }

  function DigitsValue(s: string): nat
    requires AllDigits(s)
  {
    if s == [] then 0 else DigitsValue(s[..|s| - 1]) * 10 + (s[|s| - 1] - '0') as nat
  }

  // `u64::from_str`: an optional plus sign, then digits whose value fits.
  function ParseU64(s: string): Option<nat> {
    var digits := if |s| > 0 && s[0] == '+' then s[1..] else s;
    if |digits| > 0 && AllDigits(digits) && DigitsValue(digits) < U64_LIMIT then
      Some(DigitsValue(digits))
    else
      None
  }

  lemma {:induction false} DecimalValue(n: nat)
    ensures DigitsValue(Decimal(n)) == n
  {
    var s := Decimal(n);
    if n >= 10 {
      DecimalValue(n / 10);
      assert s[..|s| - 1] == Decimal(n / 10);
    } else {
      assert s[..|s| - 1] == [];
    }
  }

  lemma ParseDecimal(n: nat)
    requires n < U64_LIMIT
    ensures ParseU64(Decimal(n)) == Some(n)
  {
    DecimalValue(n);
    assert IsDigit(Decimal(n)[0]);
  }

  function Power10(k: nat): nat {
    if k == 0 then 1 else 10 * Power10(k - 1)
  }

  lemma {:induction false} DecimalLength(n: nat, k: nat)
    requires 0 < k && n < Power10(k)
    ensures |Decimal(n)| <= k
  {
    if n < 10 {
    } else {
      DecimalLength(n / 10, k - 1);
    }
  }

  lemma U64Length(n: nat)
    requires n < U64_LIMIT
    ensures |Decimal(n)| <= 20
  {
    assert Power10(4) == 10_000;
    assert Power10(8) == 100_000_000;
    assert Power10(12) == 1_000_000_000_000;
    assert Power10(16) == 10_000_000_000_000_000;
    assert Power10(20) == 100_000_000_000_000_000_000;
    DecimalLength(n, 20);
  }
}
