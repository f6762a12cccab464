/** The existing-development property price page: records downloaded from the government
    data API have their keys cleaned of non-ASCII text, the month strings lose their
    footnote asterisks, the column names are stripped, incomplete rows are dropped, and
    the chosen series gets a year-on-year column. The request, the date parsing and the
    plots are not part of this model. */
module PropertyPrices {
  import opened Wrappers
  import opened Sequences
  import opened Text
  import opened Frames

  /* ---------------- key sanitiser ---------------- */

  predicate IsAscii(c: char) {
    c as int < 0x80
  }

  predicate AllAscii(s: string) {
    forall i :: 0 <= i < |s| ==> IsAscii(s[i])
  }

  /** What is left after the run of non-ASCII characters at the front. */
  function SkipNonAscii(s: string): (r: string)
    ensures |r| <= |s|
    ensures r == [] || IsAscii(r[0])
  {
    if s != [] && !IsAscii(s[0]) then SkipNonAscii(s[1..]) else s
  }

  /** `re.sub(r'[^\x00-\x7F]+', ' ', key)`. */
  function SanitiseKey(s: string): string
    decreases |s|
  {
    if s == [] then []
    else if IsAscii(s[0]) then [s[0]] + SanitiseKey(s[1..])
    else [' '] + SanitiseKey(SkipNonAscii(s[1..]))
  }

  /** Sanitised keys are pure ASCII. */
  lemma {:induction false} SanitiseKeyAscii(s: string)
    ensures AllAscii(SanitiseKey(s))
    decreases |s|
  {
    if s != [] {
      if IsAscii(s[0]) {
        SanitiseKeyAscii(s[1..]);
      } else {
        SanitiseKeyAscii(SkipNonAscii(s[1..]));
      }
    }
  }

  /** An all-ASCII key is left as it is. */
  lemma {:induction false} SanitiseKeyUnchanged(s: string)
    requires AllAscii(s)
    ensures SanitiseKey(s) == s
    decreases |s|
  {
    if s != [] {
      SanitiseKeyUnchanged(s[1..]);
      assert s == [s[0]] + s[1..];
    }
  }

  /** Sanitising twice changes nothing more. */
  lemma SanitiseKeyIdempotent(s: string)
    ensures SanitiseKey(SanitiseKey(s)) == SanitiseKey(s)
  {
    SanitiseKeyAscii(s);
    SanitiseKeyUnchanged(SanitiseKey(s));
  }

  /** A maximal run of non-ASCII characters between an ASCII prefix and a part starting
      with an ASCII character becomes exactly one space, and the ASCII prefix stays. */
  lemma SanitiseKeyRun(a: string, u: string, b: string)
    requires AllAscii(a) && u != [] && forall i :: 0 <= i < |u| ==> !IsAscii(u[i])
    requires b == [] || IsAscii(b[0])
    ensures SanitiseKey(a + u + b) == a + [' '] + SanitiseKey(b)
  {
    assert a + u + b == a + (u + b);
    SanitiseKeyAsciiPrefix(a, u + b);
    SanitiseKeyRunFront(u, b);
  }

  /** An ASCII prefix passes through unchanged. */
  lemma {:induction false} SanitiseKeyAsciiPrefix(a: string, s: string)
    requires AllAscii(a)
    ensures SanitiseKey(a + s) == a + SanitiseKey(s)
    decreases |a|
  {
    if a == [] {
      assert a + s == s && a + SanitiseKey(s) == SanitiseKey(s);
    } else {
      SanitiseKeyAsciiPrefix(a[1..], s);
      PrefixStep(a, s);
    }
  }

  /** One step of the induction above: the first character passes through. */
  lemma PrefixStep(a: string, s: string)
    requires a != [] && IsAscii(a[0])
    requires SanitiseKey(a[1..] + s) == a[1..] + SanitiseKey(s)
    ensures SanitiseKey(a + s) == a + SanitiseKey(s)
  {
    var x := a + s;
    assert x[0] == a[0];
    assert x[1..] == a[1..] + s;
    SanitiseKeyHead(x);
    ConsAssoc(a, SanitiseKey(s));
  }

  lemma SanitiseKeyHead(x: string)
    requires x != [] && IsAscii(x[0])
    ensures SanitiseKey(x) == [x[0]] + SanitiseKey(x[1..])
  {
  }

  lemma ConsAssoc(a: string, k: string)
    requires a != []
    ensures [a[0]] + (a[1..] + k) == a + k
  {
    assert a == [a[0]] + a[1..];
  }

  lemma SanitiseKeyRunFront(u: string, b: string)
    requires u != [] && forall i :: 0 <= i < |u| ==> !IsAscii(u[i])
    requires b == [] || IsAscii(b[0])
    ensures SanitiseKey(u + b) == [' '] + SanitiseKey(b)
  {
    var w := u + b;
    assert w[0] == u[0];
    assert w[1..] == u[1..] + b;
    SkipRun(u[1..], b);
  }

  lemma {:induction false} SkipRun(u: string, b: string)
    requires forall i :: 0 <= i < |u| ==> !IsAscii(u[i])
    requires b == [] || IsAscii(b[0])
    ensures SkipNonAscii(u + b) == b
    decreases |u|
  {
    if u == [] {
      assert u + b == b;
    } else {
      assert (u + b)[1..] == u[1..] + b;
      SkipRun(u[1..], b);
    }
  }

  /** `{f(key): item.get(key, None) for key in item}` over the record's entries in order:
      every value is carried over, and a later key that `f` maps to the same text
      overwrites an earlier one. */
  function Rekey<V>(item: seq<(string, V)>, f: string -> string): map<string, V>
    decreases |item|
  {
    if item == [] then map[]
    else
      var (k, v) := item[|item| - 1];
      Rekey(item[..|item| - 1], f)[f(k) := v]
  }

  /** The entries' keys after `f`, in the record's order. */
  function RekeyedKeys<V>(item: seq<(string, V)>, f: string -> string): (r: seq<string>)
    ensures |r| == |item|
    ensures forall i :: 0 <= i < |item| ==> r[i] == f(item[i].0)
  {
    seq(|item|, i requires 0 <= i < |item| => f(item[i].0))
  }

  /** The rekeyed record has a key exactly for the texts some entry's key maps to, and holds
      there the value of the last such entry. */
  lemma {:induction false} RekeyRule<V>(item: seq<(string, V)>, f: string -> string, key: string)
    ensures key in Rekey(item, f) <==> key in RekeyedKeys(item, f)
    ensures key in Rekey(item, f) ==> Rekey(item, f)[key] == item[LastIndex(RekeyedKeys(item, f), key)].1
    decreases |item|
  {
    if item != [] {
      var n := |item| - 1;
      var keys := RekeyedKeys(item, f);
      RekeyRule(item[..n], f, key);
      assert RekeyedKeys(item[..n], f) == keys[..n];
      assert keys == keys[..n] + [keys[n]];
      if keys[n] != key && key in keys[..n] {
        LastIndexBeforeLast(keys, key);
      }
    }
  }

  /** The sanitiser as a value. */
  function Sanitiser(): (f: string -> string)
    ensures forall s :: f(s) == SanitiseKey(s)
  {
    s => SanitiseKey(s)
  }

  /** The record as the page cleans it. */
  function SanitiseRecord<V>(item: seq<(string, V)>): map<string, V> {
    Rekey(item, Sanitiser())
  }

  /** The cleaned record has a key exactly for the sanitised keys of its entries, holds
      there the value of the last entry whose key sanitises to it, and every key is ASCII. */
  lemma SanitiseRecordRule<V>(item: seq<(string, V)>, key: string)
    ensures key in SanitiseRecord(item) <==> key in RekeyedKeys(item, Sanitiser())
    ensures key in SanitiseRecord(item) ==>
      && SanitiseRecord(item)[key] == item[LastIndex(RekeyedKeys(item, Sanitiser()), key)].1
      && AllAscii(key)
  {
    RekeyRule(item, Sanitiser(), key);
    if key in SanitiseRecord(item) {
      var i := LastIndex(RekeyedKeys(item, Sanitiser()), key);
      SanitiseKeyAscii(item[i].0);
    }
  }

  /** When the last element is not `x`, its last occurrence lies in the rest. */
  lemma LastIndexBeforeLast<T>(xs: seq<T>, x: T)
    requires xs != [] && xs[|xs| - 1] != x && x in xs[..|xs| - 1]
    ensures x in xs && LastIndex(xs, x) == LastIndex(xs[..|xs| - 1], x)
  {
    var init := xs[..|xs| - 1];
    var k := LastIndex(init, x);
    assert xs[k] == init[k];
    var m := LastIndex(xs, x);
    assert m < |xs| - 1 && init[m] == xs[m];
  }

  /* ---------------- month strings and column names ---------------- */

  /** `.str.replace('*', '')`. */
  function RemoveAsterisks(s: string): string {
    Filter(s, NotAsterisk())
  }

  function NotAsterisk(): char -> bool {
    c => c != '*'
  }

  /** No asterisk is left, every other character is kept, and a string without asterisks
      is unchanged; removal works piece by piece, so the order is kept. */
  lemma RemoveAsterisksRule(s: string, t: string)
    ensures '*' !in RemoveAsterisks(s)
    ensures forall c :: c != '*' ==> (c in RemoveAsterisks(s) <==> c in s)
    ensures RemoveAsterisks(s + t) == RemoveAsterisks(s) + RemoveAsterisks(t)
    ensures '*' !in s ==> RemoveAsterisks(s) == s
  {
    FilterAppend(s, t, NotAsterisk());
    if '*' !in s {
      FilterKeepsAll(s, NotAsterisk());
    }
  }

  /** The month column as the API names it once its key is sanitised. */
  const MonthColumn: string := "  Month"

  /** `.str.replace('*', '')` over a column: text loses its asterisks, a cell that is not
      text becomes missing. */
  function CleanMonths(col: seq<Cell>): (r: seq<Cell>)
    ensures |r| == |col|
    ensures forall i :: 0 <= i < |col| ==> (r[i].Text? <==> col[i].Text?)
    ensures forall i :: 0 <= i < |col| && col[i].Text? ==>
      r[i].text == RemoveAsterisks(col[i].text) && '*' !in r[i].text
  {
    seq(|col|, i requires 0 <= i < |col| => if col[i].Text? then Text(RemoveAsterisks(col[i].text)) else Missing)
  }

  /** Line `df['  Month'] = df['  Month'].str.replace('*', '')` on the page's frame. */
  method RemoveMonthAsterisks(df: Frame) returns (r: Result<(), PyError>)
    requires df.Valid()
    modifies df
    ensures df.Valid() && df.index == old(df.index)
    ensures MonthColumn !in old(df.columns) ==> r == Err(KeyError) && df.columns == old(df.columns)
    ensures MonthColumn in old(df.columns) ==>
      r == Ok(()) && df.columns == old(df.columns)[MonthColumn := CleanMonths(old(df.columns)[MonthColumn])]
  {
    if MonthColumn !in df.columns {
      return Err(KeyError);
    }
    df.columns := df.columns[MonthColumn := CleanMonths(df.columns[MonthColumn])];
    r := Ok(());
  }

  /** `df.columns.str.strip()`. */
  function StripColumnNames(names: seq<string>): seq<string> {
    StripEach(names)
  }

  /** Every column name loses its surrounding white space and keeps its position: name `i`
      of the result is name `i` stripped, and stripping it again changes nothing. */
  lemma StripColumnNamesRule(names: seq<string>)
    ensures |StripColumnNames(names)| == |names|
    ensures forall i :: 0 <= i < |names| ==> StripColumnNames(names)[i] == Strip(names[i])
    ensures forall i :: 0 <= i < |names| ==>
      var n := StripColumnNames(names)[i];
      (n == [] || (!IsSpace(n[0]) && !IsSpace(n[|n| - 1]))) && Strip(n) == n
  {
    forall i | 0 <= i < |names| ensures Strip(StripColumnNames(names)[i]) == StripColumnNames(names)[i] {
      StripIdempotent(names[i]);
    }
  }

  /* ---------------- year-on-year change ---------------- */

  /** The series offered in the selectbox. */
  const ColumnsToPlot: seq<string> := [
    "Urban [A, B & C -   Urban][]", "N.T. [A, B & C -   N.T.][]", "Urban [  Overall -   Urban][]",
    "N.T. [  Overall -   N.T.][]", "All [  Overall -   All][]"]

  /** The name of the added column. */
  function YearOnYearName(selected: string): string {
    selected + "_yoy"
  }

  /** Once incomplete rows are dropped, the year-on-year value of a numeric series at a
      row from the thirteenth on is the percentage change from twelve rows up (when that
      value is not 0), and the first twelve rows have none. */
  lemma YearOnYearAfterDropna(t: Table, name: string, i: nat)
    requires WellFormed(t) && name in t.columns
    requires forall j :: 0 <= j < |t.index| ==> !t.columns[name][j].Text?
    ensures var col := DropIncomplete(t).columns[name];
      && |YearOnYear(col)| == |col|
      && (i < |col| && i < Lag ==> YearOnYear(col)[i] == Missing)
      && (Lag <= i < |col| && col[i - Lag].value != 0.0 ==>
            YearOnYear(col)[i] == Number((col[i].value / col[i - Lag].value - 1.0) * 100.0))
  {
    DropIncompleteRule(t);
    var d := DropIncomplete(t);
    var col := d.columns[name];
    var k := KeptRows(t, |t.index|);
    assert forall j :: 0 <= j < |col| ==> col[j].Number? by {
      forall j | 0 <= j < |col| ensures col[j].Number? {
        assert col[j] == t.columns[name][k[j]];
      }
    }
    if i < |col| && i < Lag {
      YearOnYearLeadingMissing(col, i);
    }
    if Lag <= i < |col| && col[i - Lag].value != 0.0 {
      YearOnYearComplete(col, i);
    }
  }

  /** Line `df[selected + '_yoy'] = df[selected].pct_change(12) * 100` on the page's frame. */
  method AddSelectedYearOnYear(df: Frame, selected: string) returns (r: Result<(), PyError>)
    requires df.Valid()
    modifies df
    ensures df.Valid() && df.index == old(df.index)
    ensures selected in old(df.columns) && !TextClash(old(df.columns)[selected]) ==>
      r == Ok(()) && df.columns == old(df.columns)[YearOnYearName(selected) := YearOnYear(old(df.columns)[selected])]
    ensures selected !in old(df.columns) ==> r == Err(KeyError) && df.columns == old(df.columns)
    ensures selected in old(df.columns) && TextClash(old(df.columns)[selected]) ==>
      r == Err(TypeError) && df.columns == old(df.columns)
  {
    r := df.AddYearOnYear(selected, YearOnYearName(selected));
  }
}
