/** Hazard records: the de-duplicated rows of an uploaded spreadsheet and the text block that
    renders one of them as a prompt (`handle_file_upload`, `convert_hazard_to_text`). */
module Hazards {
  import opened Wrappers

  /** A parsed sheet: column names in sheet order and the rows of cells. Cells are of any type
      with equality; how a cell is shown is the caller's `display` function (pandas' `str`). */
  datatype Table<V> = Table(columns: seq<string>, rows: seq<seq<V>>) {
    /** Every row has one cell per column, as every data frame does. */
    predicate Rectangular() {
      forall k :: 0 <= k < |rows| ==> |rows[k]| == |columns|
    }
  }

  predicate NoDuplicates<T(==)>(s: seq<T>) {
    forall i, j :: 0 <= i < j < |s| ==> s[i] != s[j]
  }

  /** The position of the first occurrence of `x` in `s`. */
  function FirstIndex<T(==)>(s: seq<T>, x: T): (k: nat)
    requires x in s
    ensures k < |s| && s[k] == x
    ensures forall j :: 0 <= j < k ==> s[j] != x
  {
    if s[0] == x then 0 else 1 + FirstIndex(s[1..], x)
  }

  /** `t` draws its elements from `s` and lists them in the order they first occur in `s`. */
  predicate InFirstOccurrenceOrder<T(==)>(t: seq<T>, s: seq<T>) {
    && (forall k :: 0 <= k < |t| ==> t[k] in s)
    && forall i, j :: 0 <= i < j < |t| ==> FirstIndex(s, t[i]) < FirstIndex(s, t[j])
  }

  /** `drop_duplicates()`: keep the first of every group of identical rows. The result is a
      fresh sequence, so its positions are renumbered from 0 (`reset_index(drop=True)`). */
  function Dedup<T(==)>(s: seq<T>): (r: seq<T>)
    ensures NoDuplicates(r)
    ensures forall k :: 0 <= k < |s| ==> s[k] in r
    ensures forall k :: 0 <= k < |r| ==> r[k] in s
    ensures |r| <= |s|
  {
    if |s| == 0 then []
    else
      var kept := Dedup(s[..|s| - 1]);
      if s[|s| - 1] in kept then kept else kept + [s[|s| - 1]]
  }

  lemma FirstIndexExtend<T>(p: seq<T>, x: T, y: T)
    requires y in p
    ensures FirstIndex(p + [x], y) == FirstIndex(p, y)
  {
    var k, m := FirstIndex(p + [x], y), FirstIndex(p, y);
    assert (p + [x])[m] == y;
    assert k <= m;
    assert p[k] == (p + [x])[k];
  }

  /** De-duplication keeps the rows in the order in which they first occur. */
  lemma {:induction false} DedupOrder<T>(s: seq<T>)
    ensures InFirstOccurrenceOrder(Dedup(s), s)
  {
    if |s| > 0 {
      var p, x := s[..|s| - 1], s[|s| - 1];
      assert s == p + [x];
      DedupOrder(p);
      var d := Dedup(s);
      forall k | 0 <= k < |Dedup(p)|
        ensures FirstIndex(s, Dedup(p)[k]) == FirstIndex(p, Dedup(p)[k])
      {
        FirstIndexExtend(p, x, Dedup(p)[k]);
      }
      if x !in p {
        assert FirstIndex(s, x) == |p| by {
          assert s[|p|] == x;
          assert forall j :: 0 <= j < |p| ==> s[j] == p[j];
        }
        assert d == Dedup(p) + [x];
      }
    }
  }

  /** An order by first occurrence in `p + [x]` of elements of `p` is one in `p`. */
  lemma OrderRestrict<T>(p: seq<T>, x: T, t: seq<T>)
    requires InFirstOccurrenceOrder(t, p + [x])
    requires forall k :: 0 <= k < |t| ==> t[k] in p
    ensures InFirstOccurrenceOrder(t, p)
  {
    forall i, j | 0 <= i < j < |t| ensures FirstIndex(p, t[i]) < FirstIndex(p, t[j]) {
      FirstIndexExtend(p, x, t[i]);
      FirstIndexExtend(p, x, t[j]);
    }
  }

  /** A row seen for the first time at the end of `p + [x]` comes last in first-occurrence order. */
  lemma NewLast<T>(p: seq<T>, x: T, t: seq<T>) returns (u: seq<T>)
    requires x !in p
    requires NoDuplicates(t)
    requires forall y :: y in t <==> y in p + [x]
    requires InFirstOccurrenceOrder(t, p + [x])
    ensures t == u + [x]
    ensures NoDuplicates(u)
    ensures forall y :: y in u <==> y in p
    ensures InFirstOccurrenceOrder(u, p)
  {
    var s := p + [x];
    assert FirstIndex(s, x) == |p| by {
      assert s[|p|] == x;
      assert forall j :: 0 <= j < |p| ==> s[j] == p[j];
    }
    assert x in t;
    var n := |t| - 1;
    var i :| 0 <= i < |t| && t[i] == x;
    assert t[n] == x by {
      assert FirstIndex(s, t[i]) == |p|;
      assert FirstIndex(s, t[n]) < |s|;
    }
    u := t[..n];
    assert t == u + [x];
    forall y ensures y in u <==> y in p {
      if y in u {
        var k :| 0 <= k < n && u[k] == y;
        assert t[k] != t[n];
      }
      if y in p {
        assert y in t && y != x;
      }
    }
    forall k | 0 <= k < |u| ensures u[k] in p {
      assert u[k] in u;
    }
    OrderRestrict(p, x, u);
  }

  lemma HeadIn<T>(t: seq<T>)
    requires |t| > 0
    ensures t[0] in t
  {
  }

  /** The three properties above determine the result: any sequence without duplicates that
      holds exactly the rows of `s` in first-occurrence order is `Dedup(s)`. */
  lemma {:induction false} DedupUnique<T>(s: seq<T>, t: seq<T>)
    requires NoDuplicates(t)
    requires forall x :: x in t <==> x in s
    requires InFirstOccurrenceOrder(t, s)
    ensures t == Dedup(s)
  {
    if |s| == 0 {
      if |t| > 0 {
        HeadIn(t);
        assert false;
      }
    } else {
      var p, x := s[..|s| - 1], s[|s| - 1];
      assert s == p + [x];
      if x in p {
        forall k | 0 <= k < |t| ensures t[k] in p {
          assert t[k] in t;
        }
        OrderRestrict(p, x, t);
        DedupUnique(p, t);
      } else {
        var u := NewLast(p, x, t);
        DedupUnique(p, u);
      }
    }
  }

  /** `df.drop_duplicates().reset_index(drop=True)`: same columns, de-duplicated rows. */
  function DropDuplicates<V(==)>(t: Table<V>): (u: Table<V>)
    ensures u.columns == t.columns
    ensures t.Rectangular() ==> u.Rectangular()
    ensures forall k :: 0 <= k < |t.rows| ==> t.rows[k] in u.rows
    ensures forall k :: 0 <= k < |u.rows| ==> u.rows[k] in t.rows
  {
    Table(t.columns, Dedup(t.rows))
  }

  /** A five-row sheet whose second and fourth rows are identical keeps four records, and the
      record at position 3 is the sheet's fifth row. */
  lemma DedupFiveRows<T>(a: T, b: T, c: T, e: T)
    requires a != b && a != c && a != e && b != c && b != e && c != e
    ensures Dedup([a, b, c, b, e]) == [a, b, c, e]
    ensures Dedup([a, b, c, b, e])[3] == [a, b, c, b, e][4]
  {
    var s, t := [a, b, c, b, e], [a, b, c, e];
    assert FirstIndex(s, a) == 0 && FirstIndex(s, b) == 1;
    assert FirstIndex(s, c) == 2;
    assert FirstIndex(s, e) == 4 by {
      assert s[4] == e && s[0] != e && s[1] != e && s[2] != e && s[3] != e;
    }
    assert forall x :: x in t <==> x in s;
    DedupUnique(s, t);
  }

  // ---------------------------------------------------------------- rendering

  function DigitChar(d: nat): char
    requires d < 10
  {
    "0123456789"[d]
  }

  /** Decimal digits of `n`, as Python's `str` writes a non-negative int. */
  function NatToString(n: nat): (s: string)
    ensures |s| >= 1
    ensures forall k :: 0 <= k < |s| ==> '0' <= s[k] <= '9'
  {
    if n < 10 then [DigitChar(n)] else NatToString(n / 10) + [DigitChar(n % 10)]
  }

  /** The value of a string of decimal digits. */
  function DigitsValue(s: string): nat
    requires forall k :: 0 <= k < |s| ==> '0' <= s[k] <= '9'
  {
    if |s| == 0 then 0
    else 10 * DigitsValue(s[..|s| - 1]) + (s[|s| - 1] as int - '0' as int)
  }

  /** The number in a header reads back as the number written. */
  lemma {:induction false} NatToStringRoundTrip(n: nat)
    ensures DigitsValue(NatToString(n)) == n
  {
    if n >= 10 {
      var s := NatToString(n);
      assert s[..|s| - 1] == NatToString(n / 10);
      NatToStringRoundTrip(n / 10);
    }
  }

  /** Python's `str` of an int: a minus sign before the digits of a negative number. */
  function IntToString(i: int): (s: string)
    ensures forall k :: 0 <= k < |s| ==> s[k] != '\n'
  {
    if i < 0 then "-" + NatToString(-i) else NatToString(i)
  }

  /** The header line `Hazard {n + 1}:`. */
  function Header(hazardNumber: int): string {
    "Hazard " + IntToString(hazardNumber + 1) + ":\n"
  }

  /** The line `{col}: {value}` for one column. */
  function Line(column: string, value: string): string {
    column + ": " + value + "\n"
  }

  /** One line per column, in column order. */
  function HazardLines<V>(columns: seq<string>, cells: seq<V>, display: V -> string): string
    requires |cells| == |columns|
  {
    if |columns| == 0 then ""
    else
      HazardLines(columns[..|columns| - 1], cells[..|cells| - 1], display)
      + Line(columns[|columns| - 1], display(cells[|cells| - 1]))
  }

  /** The whole text block for the row `row` shown as hazard number `hazardNumber`. */
  function HazardText<V>(columns: seq<string>, row: seq<V>, display: V -> string, hazardNumber: int): string
    requires |row| == |columns|
  {
    Header(hazardNumber) + HazardLines(columns, row, display)
  }

  /** The row that `df.iloc[n]` selects: non-negative positions count from the front,
      negative ones from the back, and anything else raises IndexError (None). */
  function ILoc(n: int, len: nat): (k: Option<nat>)
    ensures k.Some? <==> -(len as int) <= n < len
    ensures k.Some? ==> k.value < len
    ensures 0 <= n < len ==> k == Some(n)
    ensures n < 0 && k.Some? ==> k.value == len + n
  {
    if 0 <= n < len then Some(n)
    else if -(len as int) <= n < 0 then Some(len + n)
    else None
  }

  /** What `convert_hazard_to_text(df, n)` returns, or None where it raises IndexError. */
  function HazardTextAt<V>(df: Table<V>, hazardNumber: int, display: V -> string): Option<string>
    requires df.Rectangular()
  {
    match ILoc(hazardNumber, |df.rows|)
    case None => None
    case Some(k) => Some(HazardText(df.columns, df.rows[k], display, hazardNumber))
  }

  /** `convert_hazard_to_text`: the header, then one `col: value` line per column appended in
      a loop. Every position the picker offers renders that row and no other. */
  method ConvertHazardToText<V>(df: Table<V>, hazardNumber: int, display: V -> string)
    returns (text: Option<string>)
    requires df.Rectangular()
    ensures text == HazardTextAt(df, hazardNumber, display)
    ensures text.None? <==> !(-|df.rows| <= hazardNumber < |df.rows|)
    ensures 0 <= hazardNumber < |df.rows| ==>
              text == Some(HazardText(df.columns, df.rows[hazardNumber], display, hazardNumber))
  {
    var position := ILoc(hazardNumber, |df.rows|);
    if position.None? {
      return None;
    }
    var row := df.rows[position.value];
    var s := Header(hazardNumber);
    for i := 0 to |df.columns|
      invariant s == Header(hazardNumber) + HazardLines(df.columns[..i], row[..i], display)
    {
      s := s + Line(df.columns[i], display(row[i]));
      assert df.columns[..i + 1][..i] == df.columns[..i];
      assert row[..i + 1][..i] == row[..i];
    }
    assert df.columns[..|df.columns|] == df.columns;
    assert row[..|row|] == row;
    return Some(s);
  }

  /** The number of occurrences of `c` in `s`. */
  function CountChar(s: string, c: char): nat {
    if |s| == 0 then 0
    else CountChar(s[..|s| - 1], c) + (if s[|s| - 1] == c then 1 else 0)
  }

  lemma {:induction false} CountCharConcat(a: string, b: string, c: char)
    ensures CountChar(a + b, c) == CountChar(a, c) + CountChar(b, c)
  {
    if |b| == 0 {
      assert a + b == a;
    } else {
      var b' := b[..|b| - 1];
      assert (a + b)[..|a + b| - 1] == a + b';
      assert (a + b)[|a + b| - 1] == b[|b| - 1];
      CountCharConcat(a, b', c);
    }
  }

  lemma {:induction false} CountCharAbsent(s: string, c: char)
    requires forall k :: 0 <= k < |s| ==> s[k] != c
    ensures CountChar(s, c) == 0
  {
    if |s| > 0 {
      CountCharAbsent(s[..|s| - 1], c);
    }
  }

  /** When no column name and no displayed value contains a line break, the text block has
      exactly one line for the header plus one line per column. */
  lemma {:induction false} HazardTextLineCount<V>(columns: seq<string>, row: seq<V>, display: V -> string, hazardNumber: int)
    requires |row| == |columns|
    requires forall k :: 0 <= k < |columns| ==> '\n' !in columns[k]
    requires forall k :: 0 <= k < |row| ==> '\n' !in display(row[k])
    ensures CountChar(HazardText(columns, row, display, hazardNumber), '\n') == 1 + |columns|
  {
    HeaderCount(hazardNumber);
    CountCharConcat(Header(hazardNumber), HazardLines(columns, row, display), '\n');
    LinesCount(columns, row, display);
  }

  lemma HeaderCount(hazardNumber: int)
    ensures CountChar(Header(hazardNumber), '\n') == 1
  {
    var n := IntToString(hazardNumber + 1);
    var prefix := "Hazard " + n + ":";
    assert Header(hazardNumber) == prefix + "\n";
    CountCharAbsent(prefix, '\n');
    CountCharConcat(prefix, "\n", '\n');
    assert CountChar("\n", '\n') == 1 by {
      assert "\n"[..0] == "";
    }
  }

  lemma {:induction false} LinesCount<V>(columns: seq<string>, row: seq<V>, display: V -> string)
    requires |row| == |columns|
    requires forall k :: 0 <= k < |columns| ==> '\n' !in columns[k]
    requires forall k :: 0 <= k < |row| ==> '\n' !in display(row[k])
    ensures CountChar(HazardLines(columns, row, display), '\n') == |columns|
  {
    if |columns| > 0 {
      var m := |columns| - 1;
      var col, val := columns[m], display(row[m]);
      LinesCount(columns[..m], row[..m], display);
      CountCharConcat(HazardLines(columns[..m], row[..m], display), Line(col, val), '\n');
      assert Line(col, val) == (col + ": " + val) + "\n";
      CountCharConcat(col + ": " + val, "\n", '\n');
      CountCharConcat(col + ": ", val, '\n');
      CountCharConcat(col, ": ", '\n');
      assert forall k :: 0 <= k < |col| ==> col[k] != '\n';
      assert forall k :: 0 <= k < |val| ==> val[k] != '\n';
      CountCharAbsent(col, '\n');
      CountCharAbsent(val, '\n');
    }
  }
}
