/**
 * The application-side dynamic value (Qt's QVariant) as far as the player
 * uses it, together with QVariantMap (a QMap<QString, QVariant>: unique keys
 * kept in ascending order) and the QVariant conversions the player relies on.
 */
module Values {

  datatype Option<+T> = None | Some(value: T)

  /** C++ `int` and `qlonglong`. */
  newtype Int32 = x: int | -0x8000_0000 <= x < 0x8000_0000
  newtype Int64 = x: int | -0x8000_0000_0000_0000 <= x < 0x8000_0000_0000_0000

  /**
   * A QVariant. Doubles are carried as reals: nothing in the player does
   * floating-point arithmetic that the model needs beyond ordering.
   * `Other` stands for every meta-type the bridge does not handle
   * (QUrl, QByteArray, unsigned integers, ...).
   */
  datatype Value =
    | Invalid
    | Bool(b: bool)
    | Int(i: Int32)
    | LongLong(l: Int64)
    | Double(d: real)
    | Str(s: string)
    | List(items: seq<Value>)
    | Map(entries: seq<Entry>)
    | Other(typeId: int)

  /** One key/value pair of a QVariantMap. */
  datatype Entry = Entry(key: string, value: Value)

  // ---------------------------------------------------------------------
  // Ordering of QString keys: lexicographic on characters.
  // ---------------------------------------------------------------------

  predicate Less(a: string, b: string)
  {
    if |a| == 0 then |b| > 0
    else if |b| == 0 then false
    else if a[0] == b[0] then Less(a[1..], b[1..])
    else a[0] < b[0]
  }

  lemma {:induction false} LessIrreflexive(a: string)
    ensures !Less(a, a)
  {
    if |a| > 0 { LessIrreflexive(a[1..]); }
  }

  lemma {:induction false} LessTransitive(a: string, b: string, c: string)
    requires Less(a, b) && Less(b, c)
    ensures Less(a, c)
  {
    if |a| > 0 && |b| > 0 && |c| > 0 && a[0] == b[0] && b[0] == c[0] {
      LessTransitive(a[1..], b[1..], c[1..]);
    }
  }

  lemma {:induction false} LessTotal(a: string, b: string)
    requires a != b
    ensures Less(a, b) || Less(b, a)
  {
    if |a| > 0 && |b| > 0 && a[0] == b[0] {
      assert a == [a[0]] + a[1..] && b == [b[0]] + b[1..];
      LessTotal(a[1..], b[1..]);
    }
  }

  lemma LessAsymmetric(a: string, b: string)
    requires Less(a, b)
    ensures !Less(b, a) && a != b
  {
    LessIrreflexive(a);
    if Less(b, a) { LessTransitive(a, b, a); }
  }

  // ---------------------------------------------------------------------
  // QVariantMap as an ascending sequence of entries.
  // ---------------------------------------------------------------------

  /** The QMap invariant: keys strictly ascending, hence unique. */
  ghost predicate Ascending(es: seq<Entry>)
  {
    forall i, j :: 0 <= i < j < |es| ==> Less(es[i].key, es[j].key)
  }

  /** QMap::value(key): the value stored under `k`, if any. */
  function Lookup(es: seq<Entry>, k: string): Option<Value>
  {
    if |es| == 0 then None
    else if es[0].key == k then Some(es[0].value)
    else Lookup(es[1..], k)
  }

  /** QMap::insert(key, value): replaces an existing key, otherwise inserts in key order. */
  function Insert(es: seq<Entry>, k: string, v: Value): seq<Entry>
  {
    if |es| == 0 then [Entry(k, v)]
    else if es[0].key == k then [Entry(k, v)] + es[1..]
    else if Less(k, es[0].key) then [Entry(k, v)] + es
    else [es[0]] + Insert(es[1..], k, v)
  }

  /** Inserting pairs one after the other, as a loop of QMap::insert does. */
  function InsertAll(acc: seq<Entry>, ps: seq<Entry>): seq<Entry>
    decreases |ps|
  {
    if |ps| == 0 then acc else InsertAll(Insert(acc, ps[0].key, ps[0].value), ps[1..])
  }

  lemma {:induction false} InsertAbove(es: seq<Entry>, k: string, v: Value, lo: string)
    requires Less(lo, k) && forall e :: e in es ==> Less(lo, e.key)
    ensures forall e :: e in Insert(es, k, v) ==> Less(lo, e.key)
  {
    if |es| > 0 && es[0].key != k && !Less(k, es[0].key) {
      InsertAbove(es[1..], k, v, lo);
    }
  }

  lemma {:induction false} InsertAscending(es: seq<Entry>, k: string, v: Value)
    requires Ascending(es)
    ensures Ascending(Insert(es, k, v))
  {
    if |es| == 0 || es[0].key == k {
    } else if Less(k, es[0].key) {
      var r := Insert(es, k, v);
      forall i, j | 0 <= i < j < |r| ensures Less(r[i].key, r[j].key) {
        if i > 0 && j > 1 {
          assert r[i] == es[i - 1] && r[j] == es[j - 1];
        } else if i == 0 && j > 1 {
          assert r[j] == es[j - 1];
          LessTransitive(k, es[0].key, es[j - 1].key);
        }
      }
    } else {
      LessTotal(k, es[0].key);
      InsertAscending(es[1..], k, v);
      var t := Insert(es[1..], k, v);
      var r := [es[0]] + t;
      forall i, j | 0 <= i < j < |r| ensures Less(r[i].key, r[j].key) {
        if i == 0 {
          forall e | e in es[1..] ensures Less(es[0].key, e.key) {
            var m :| 0 <= m < |es[1..]| && es[1..][m] == e;
            assert es[m + 1] == e;
          }
          InsertAbove(es[1..], k, v, es[0].key);
          assert r[j] in t;
        } else {
          assert r[i] == t[i - 1] && r[j] == t[j - 1];
        }
      }
    }
  }

  lemma {:induction false} LookupInsert(es: seq<Entry>, k: string, v: Value, x: string)
    ensures Lookup(Insert(es, k, v), x) == if x == k then Some(v) else Lookup(es, x)
  {
    if |es| > 0 && es[0].key != k && !Less(k, es[0].key) {
      LookupInsert(es[1..], k, v, x);
    } else if |es| > 0 {
      var r := Insert(es, k, v);
      assert r[1..] == (if es[0].key == k then es[1..] else es);
    }
  }

  /** Inserting a key above every present key appends it. */
  lemma {:induction false} InsertGreatest(es: seq<Entry>, k: string, v: Value)
    requires forall e :: e in es ==> Less(e.key, k)
    ensures Insert(es, k, v) == es + [Entry(k, v)]
  {
    if |es| > 0 {
      LessAsymmetric(es[0].key, k);
      InsertGreatest(es[1..], k, v);
      assert es == [es[0]] + es[1..];
    }
  }

  /** Re-inserting a stored pair changes nothing. */
  lemma {:induction false} InsertPresent(es: seq<Entry>, k: string, v: Value)
    requires Ascending(es) && Lookup(es, k) == Some(v)
    ensures Insert(es, k, v) == es
  {
    if es[0].key != k {
      assert Ascending(es[1..]) by {
        forall i, j | 0 <= i < j < |es[1..]| ensures Less(es[1..][i].key, es[1..][j].key) {
          assert es[1..][i] == es[i + 1] && es[1..][j] == es[j + 1];
        }
      }
      LookupFound(es[1..], k);
      var m :| 0 <= m < |es[1..]| && es[1..][m].key == k;
      assert es[m + 1].key == k;
      LessAsymmetric(es[0].key, k);
      InsertPresent(es[1..], k, v);
      assert es == [es[0]] + es[1..];
    } else {
      assert es == [es[0]] + es[1..];
    }
  }

  lemma {:induction false} LookupFound(es: seq<Entry>, k: string)
    requires Lookup(es, k).Some?
    ensures exists m :: 0 <= m < |es| && es[m].key == k && es[m].value == Lookup(es, k).value
  {
    if es[0].key != k {
      LookupFound(es[1..], k);
      var m :| 0 <= m < |es[1..]| && es[1..][m].key == k && es[1..][m].value == Lookup(es, k).value;
      assert es[m + 1] == es[1..][m];
    }
  }

  /** In an ascending map every stored pair is found by its key. */
  lemma {:induction false} LookupAt(es: seq<Entry>, m: nat)
    requires Ascending(es) && m < |es|
    ensures Lookup(es, es[m].key) == Some(es[m].value)
  {
    if m > 0 {
      LessAsymmetric(es[0].key, es[m].key);
      assert es[1..][m - 1] == es[m];
      assert Ascending(es[1..]) by {
        forall i, j | 0 <= i < j < |es[1..]| ensures Less(es[1..][i].key, es[1..][j].key) {
          assert es[1..][i] == es[i + 1] && es[1..][j] == es[j + 1];
        }
      }
      LookupAt(es[1..], m - 1);
    }
  }

  /** Inserting already ascending pairs in order rebuilds them unchanged. */
  lemma {:induction false} InsertAllAscending(acc: seq<Entry>, ps: seq<Entry>)
    requires Ascending(acc + ps)
    ensures InsertAll(acc, ps) == acc + ps
    decreases |ps|
  {
    if |ps| > 0 {
      var all := acc + ps;
      forall e | e in acc ensures Less(e.key, ps[0].key) {
        var m :| 0 <= m < |acc| && acc[m] == e;
        assert all[m] == e && all[|acc|] == ps[0];
      }
      InsertGreatest(acc, ps[0].key, ps[0].value);
      assert acc + [ps[0]] + ps[1..] == all;
      InsertAllAscending(acc + [ps[0]], ps[1..]);
    }
  }

  // ---------------------------------------------------------------------
  // Structural predicates on values.
  // ---------------------------------------------------------------------

  /** Every nested QVariantMap keeps the QMap invariant. */
  ghost predicate WellFormed(v: Value)
  {
    match v
    case List(items) => forall j :: 0 <= j < |items| ==> WellFormed(items[j])
    case Map(es) => Ascending(es) && forall j :: 0 <= j < |es| ==> WellFormed(es[j].value)
    case _ => true
  }

  /** Built only from bool, int, qlonglong, double, string, list and map. */
  predicate Encodable(v: Value)
  {
    match v
    case Invalid => false
    case Other(_) => false
    case List(items) => forall j :: 0 <= j < |items| ==> Encodable(items[j])
    case Map(es) => forall j :: 0 <= j < |es| ==> Encodable(es[j].value)
    case _ => true
  }

  /** No string or key carries a NUL character (C strings end at the first one). */
  ghost predicate NulFree(v: Value)
  {
    match v
    case Str(s) => '\0' !in s
    case List(items) => forall j :: 0 <= j < |items| ==> NulFree(items[j])
    case Map(es) => forall j :: 0 <= j < |es| ==> '\0' !in es[j].key && NulFree(es[j].value)
    case _ => true
  }

  /** What reading a value back through a 64-bit integer node gives: every int becomes a qlonglong. */
  function Widen(v: Value): (r: Value)
  {
    match v
    case Int(i) => LongLong(i as int as Int64)
    case List(items) => List(seq(|items|, j requires 0 <= j < |items| => Widen(items[j])))
    case Map(es) => Map(seq(|es|, j requires 0 <= j < |es| => Entry(es[j].key, Widen(es[j].value))))
    case _ => v
  }

  // ---------------------------------------------------------------------
  // QVariant conversions used by the player.
  // ---------------------------------------------------------------------

  function AsciiLower(c: char): char
  {
    if 'A' <= c <= 'Z' then (c as int + 32) as char else c
  }

  /** QVariant::toBool. */
  function ToBool(v: Value): bool
  {
    match v
    case Bool(b) => b
    case Int(i) => i != 0
    case LongLong(l) => l != 0
    case Double(d) => d != 0.0
    case Str(s) =>
      !(|s| == 0 || s == "0" || (|s| == 5 && forall j :: 0 <= j < 5 ==> AsciiLower(s[j]) == "false"[j]))
    case _ => false
  }

  /** A C++ conversion of an integer to `int`: two's-complement wrap-around. */
  function Wrap32(x: int): (r: Int32)
    ensures -0x8000_0000 <= x < 0x8000_0000 ==> r as int == x
    ensures (r as int - x) % 0x1_0000_0000 == 0
  {
    var m := (x + 0x8000_0000) % 0x1_0000_0000;
    (m - 0x8000_0000) as Int32
  }

  /** qRound64: round half away from zero. */
  function RoundHalfAway(d: real): int
  {
    if d >= 0.0 then (d + 0.5).Floor else -((-d + 0.5).Floor)
  }

  // ---------------------------------------------------------------------
  // Decimal text: QString::number for integers, QString::toInt and
  // QString::toDouble (always in the C locale) for the way back.
  // ---------------------------------------------------------------------

  predicate IsDigit(c: char)
  {
    '0' <= c <= '9'
  }

  predicate AllDigits(s: string)
  {
    forall j :: 0 <= j < |s| ==> IsDigit(s[j])
  }

  /** The number a run of decimal digits denotes, most significant first. */
  function DigitsValue(s: string): (n: nat)
    requires AllDigits(s)
  {
    if |s| == 0 then 0
    else DigitsValue(s[..|s| - 1]) * 10 + (s[|s| - 1] as int - 48)
  }

  function Pow10(k: nat): (p: nat)
    ensures p >= 1
  {
    if k == 0 then 1 else 10 * Pow10(k - 1)
  }

  /** Decimal text of an integer, as QString::number writes it. */
  function Decimal(n: int): (r: string)
    ensures |r| >= 1
    decreases if n < 0 then 1 - n else n
  {
    if n < 0 then "-" + Decimal(-n)
    else if n < 10 then [(48 + n) as char]
    else Decimal(n / 10) + [(48 + n % 10) as char]
  }

  /** An optional sign followed by one or more digits; anything else is rejected. */
  function ParseInteger(s: string): (r: Option<int>)
  {
    if |s| > 0 && (s[0] == '-' || s[0] == '+') then
      var rest := s[1..];
      if |rest| > 0 && AllDigits(rest) then
        Some(if s[0] == '-' then 0 - DigitsValue(rest) as int else DigitsValue(rest))
      else None
    else if |s| > 0 && AllDigits(s) then Some(DigitsValue(s))
    else None
  }

  /** Position of the first '.' in `s`, or |s| when there is none. */
  function DotIndex(s: string): (k: nat)
    ensures k <= |s|
    ensures forall j :: 0 <= j < k ==> s[j] != '.'
    ensures k < |s| ==> s[k] == '.'
  {
    if |s| == 0 then 0
    else if s[0] == '.' then 0
    else 1 + DotIndex(s[1..])
  }

  /** Digits, optionally a '.' and more digits, with at least one digit in all. */
  function ParseUnsignedReal(s: string): (r: Option<real>)
  {
    var k := DotIndex(s);
    var whole := s[..k];
    var frac := if k < |s| then s[k + 1..] else [];
    if AllDigits(whole) && AllDigits(frac) && |whole| + |frac| > 0 then
      Some(DigitsValue(whole) as real + DigitsValue(frac) as real / Pow10(|frac|) as real)
    else None
  }

  /** An optional sign followed by a plain decimal number. */
  function ParseReal(s: string): (r: Option<real>)
  {
    if |s| > 0 && (s[0] == '-' || s[0] == '+') then
      match ParseUnsignedReal(s[1..])
      case Some(x) => Some(if s[0] == '-' then -x else x)
      case None => None
    else ParseUnsignedReal(s)
  }

  /** QVariant::toInt; a string that is not a decimal `int` gives 0. */
  function ToInt(v: Value): Int32
  {
    match v
    case Bool(b) => if b then 1 else 0
    case Int(i) => i
    case LongLong(l) => Wrap32(l as int)
    case Double(d) => Wrap32(RoundHalfAway(d))
    case Str(s) =>
      (match ParseInteger(s)
       case Some(n) => if -0x8000_0000 <= n < 0x8000_0000 then n as Int32 else 0
       case None => 0)
    case _ => 0
  }

  /** QVariant::toDouble; a string that is not a plain decimal number gives 0.0. */
  function ToDouble(v: Value): real
  {
    match v
    case Bool(b) => if b then 1.0 else 0.0
    case Int(i) => i as real
    case LongLong(l) => l as real
    case Double(d) => d
    case Str(s) =>
      (match ParseReal(s)
       case Some(x) => x
       case None => 0.0)
    case _ => 0.0
  }

  /** QVariant::toString for the kinds the player converts to text. */
  function ToText(v: Value): string
  {
    match v
    case Str(s) => s
    case Bool(b) => if b then "true" else "false"
    case Int(i) => Decimal(i as int)
    case LongLong(l) => Decimal(l as int)
    case _ => ""
  }

  lemma {:induction false} DecimalDigits(n: nat)
    ensures AllDigits(Decimal(n))
    ensures DigitsValue(Decimal(n)) == n
    decreases n
  {
    if n >= 10 {
      DecimalDigits(n / 10);
      var r := Decimal(n);
      assert r[..|r| - 1] == Decimal(n / 10);
    }
  }

  /**
   * The decimal reader behind QString::toInt reads QString::number(n) back as n
   * for every integer; toInt itself gives n inside the `int` range and 0 outside it.
   */
  lemma ParseDecimal(n: int)
    ensures ParseInteger(Decimal(n)) == Some(n)
    ensures -0x8000_0000 <= n < 0x8000_0000 ==> ToInt(Str(Decimal(n))) as int == n
    ensures !(-0x8000_0000 <= n < 0x8000_0000) ==> ToInt(Str(Decimal(n))) == 0
  {
    if n < 0 {
      var d := Decimal(-n);
      DecimalDigits(-n);
      assert Decimal(n) == "-" + d;
      assert ("-" + d)[0] == '-' && ("-" + d)[1..] == d;
    } else {
      DecimalDigits(n);
      assert Decimal(n)[0] != '-' && Decimal(n)[0] != '+';
    }
  }

  /**
   * A number written out as text converts back to the same number:
   * toInt for any `int` and `qlonglong` in the `int` range, toDouble for any.
   */
  lemma TextRoundTrip(v: Value)
    requires v.Int? || v.LongLong?
    ensures v.Int? ==> ToInt(Str(ToText(v))) == v.i
    ensures v.LongLong? && -0x8000_0000 <= v.l as int < 0x8000_0000 ==> ToInt(Str(ToText(v))) == ToInt(v)
    ensures ToDouble(Str(ToText(v))) == ToDouble(v)
  {
    var n := if v.Int? then v.i as int else v.l as int;
    ParseDecimal(n);
    ParseRealInteger(Decimal(n));
  }

  /** Digit strings, signed or not, read the same through toInt and toDouble. */
  lemma ParseRealInteger(s: string)
    requires ParseInteger(s).Some?
    ensures ParseReal(s) == Some(ParseInteger(s).value as real)
  {
    var t := if s[0] == '-' || s[0] == '+' then s[1..] else s;
    NoDot(t);
    assert t[..|t|] == t;
  }

  lemma NoDot(s: string)
    requires AllDigits(s)
    ensures DotIndex(s) == |s|
  {
    if |s| > 0 {
      assert s[0] != '.';
      assert AllDigits(s[1..]) by { forall j | 0 <= j < |s| - 1 ensures IsDigit(s[1..][j]) { assert s[1..][j] == s[j + 1]; } }
      NoDot(s[1..]);
    }
  }
}
