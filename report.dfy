/** Row preparation (the flatten and sort block of the entry point): the member
    records are flattened into a list and sorted by case-folded login, and the
    CSV column list is `login`, `name`, then the repository headings. */
module Report {
  import opened GitHubData

  /** Case folding, restricted to ASCII letters. */
  function FoldChar(c: char): char
  {
    if 'A' <= c <= 'Z' then (c as int - 'A' as int + 'a' as int) as char else c
  }

  function CaseFold(s: string): string
  {
    seq(|s|, i requires 0 <= i < |s| => FoldChar(s[i]))
  }

  /** String ordering as the sort compares keys: lexicographic by code point. */
  predicate LexLe(a: string, b: string)
  {
    a == [] || (b != [] && (a[0] < b[0] || (a[0] == b[0] && LexLe(a[1..], b[1..]))))
  }

  lemma {:induction false} LexLeTotal(a: string, b: string)
    ensures LexLe(a, b) || LexLe(b, a)
  {
    if a != [] && b != [] && a[0] == b[0] {
      LexLeTotal(a[1..], b[1..]);
    }
  }

  lemma {:induction false} LexLeTransitive(a: string, b: string, c: string)
    requires LexLe(a, b) && LexLe(b, c)
    ensures LexLe(a, c)
  {
    if a != [] && a[0] == b[0] && b[0] == c[0] {
      LexLeTransitive(a[1..], b[1..], c[1..]);
    }
  }

  /** `s` is in non-decreasing order of `key`. */
  ghost predicate SortedBy<T>(s: seq<T>, key: T -> string)
  {
    forall i, j :: 0 <= i < j < |s| ==> LexLe(key(s[i]), key(s[j]))
  }

  /** Places `x` in front of the first element whose key is not smaller. */
  function Insert<T>(x: T, s: seq<T>, key: T -> string): seq<T>
  {
    if s == [] || LexLe(key(x), key(s[0])) then [x] + s
    else [s[0]] + Insert(x, s[1..], key)
  }

  /** The stable sort `sorted(s, key=key)`, as an insertion sort. */
  function SortBy<T>(s: seq<T>, key: T -> string): seq<T>
  {
    if s == [] then [] else Insert(s[0], SortBy(s[1..], key), key)
  }

  lemma {:induction false} InsertSorted<T>(x: T, s: seq<T>, key: T -> string)
    requires SortedBy(s, key)
    ensures multiset(Insert(x, s, key)) == multiset(s) + multiset{x}
    ensures SortedBy(Insert(x, s, key), key)
  {
    if s == [] {
    } else if LexLe(key(x), key(s[0])) {
      forall j | 0 <= j < |s| ensures LexLe(key(x), key(s[j])) {
        if j > 0 {
          LexLeTransitive(key(x), key(s[0]), key(s[j]));
        }
      }
    } else {
      var t := Insert(x, s[1..], key);
      InsertSorted(x, s[1..], key);
      LexLeTotal(key(x), key(s[0]));
      forall j | 0 <= j < |t| ensures LexLe(key(s[0]), key(t[j])) {
        assert t[j] in multiset(t);
        if t[j] != x {
          assert t[j] in multiset(s[1..]);
          var idx :| 0 <= idx < |s[1..]| && s[1..][idx] == t[j];
          assert s[idx + 1] == t[j];
        }
      }
      assert s == [s[0]] + s[1..];
    }
  }

  /** The sort returns a permutation of its input in non-decreasing key order. */
  lemma {:induction false} SortBySorted<T>(s: seq<T>, key: T -> string)
    ensures multiset(SortBy(s, key)) == multiset(s)
    ensures SortedBy(SortBy(s, key), key)
  {
    if s != [] {
      SortBySorted(s[1..], key);
      InsertSorted(s[0], SortBy(s[1..], key), key);
      assert s == [s[0]] + s[1..];
    }
  }

  /** The sort key of a row: its `login` field, case-folded. */
  function LoginKey(row: Record): string
  {
    if "login" in row && row["login"].Some? then CaseFold(row["login"].value) else []
  }

  /** Every record's `login` field holds a string. The sort key reads that field,
      and the source raises on a record without it. */
  ghost predicate LoginFieldsPresent(m: map<string, Record>)
  {
    forall l :: l in m ==> "login" in m[l] && m[l]["login"].Some?
  }

  /** `order` lists every key of the set exactly once. */
  ghost predicate Enumerates(order: seq<string>, keys: set<string>)
  {
    && (forall i, j :: 0 <= i < j < |order| ==> order[i] != order[j])
    && (forall k :: k in keys <==> k in order)
  }

  /** The values of `members` listed in the order of `order`. */
  function ValuesIn(members: map<string, Record>, order: seq<string>): seq<Record>
    requires forall k :: k in order ==> k in members
  {
    seq(|order|, i requires 0 <= i < |order| => members[order[i]])
  }

  /** The flatten loop: one row per member, in the dictionary's iteration order
      (given here by `order`). */
  method Flatten(members: map<string, Record>) returns (rows: seq<Record>, ghost order: seq<string>)
    ensures |rows| == |members|
    ensures Enumerates(order, members.Keys) && |order| == |members|
    ensures rows == ValuesIn(members, order)
  {
    rows := [];
    order := [];
    var remaining := members.Keys;
    while remaining != {}
      invariant remaining <= members.Keys
      invariant forall i, j :: 0 <= i < j < |order| ==> order[i] != order[j]
      invariant forall k :: k in members.Keys <==> k in order || k in remaining
      invariant forall k :: k in order ==> k !in remaining
      invariant |remaining| + |order| == |members|
      invariant |rows| == |order| && forall i :: 0 <= i < |order| ==> rows[i] == members[order[i]]
      decreases remaining
    {
      var key :| key in remaining;
      rows := rows + [members[key]];
      order := order + [key];
      remaining := remaining - {key};
    }
  }

  /** The rows of the report: every member's record once, sorted by
      case-folded login. */
  method SortedRows(members: map<string, Record>) returns (rows: seq<Record>, ghost order: seq<string>)
    requires LoginFieldsPresent(members)
    ensures Enumerates(order, members.Keys) && |rows| == |members|
    ensures multiset(rows) == multiset(ValuesIn(members, order))
    ensures SortedBy(rows, LoginKey)
  {
    var flat;
    flat, order := Flatten(members);
    rows := SortBy(flat, LoginKey);
    SortBySorted(flat, LoginKey);
    assert |rows| == |flat| by {
      assert |multiset(rows)| == |multiset(flat)|;
    }
  }

  /** The CSV columns and rows handed to the writer. */
  datatype Csv = Csv(columns: seq<string>, rows: seq<Record>)

  /** The flatten and sort block as written: the headings are sorted into a
      list that is never used, and the columns take the headings unsorted. */
  method PrepareReport(members: map<string, Record>, headings: seq<string>)
    returns (report: Csv, ghost order: seq<string>)
    requires LoginFieldsPresent(members)
    ensures report.columns == ["login", "name"] + headings
    ensures Enumerates(order, members.Keys) && |report.rows| == |members|
    ensures multiset(report.rows) == multiset(ValuesIn(members, order))
    ensures SortedBy(report.rows, LoginKey)
  {
    var columnHeadings := SortBy(headings, CaseFold);
    var columns := ["login", "name"] + headings;
    var rows;
    rows, order := SortedRows(members);
    report := Csv(columns, rows);
  }

  /** Two headings that are out of order reach the CSV header out of order. */
  method UnsortedColumnsWitness() returns (report: Csv)
    ensures |report.columns| == 4 && report.columns[2..] == ["b", "A"]
    ensures !SortedBy(report.columns[2..], CaseFold)
  {
    ghost var order;
    report, order := PrepareReport(map[], ["b", "A"]);
    var headers := report.columns[2..];
    assert headers == ["b", "A"];
    assert CaseFold("b") == "b" && CaseFold("A") == "a";
    assert !LexLe(CaseFold(headers[0]), CaseFold(headers[1]));
  }

  /** The block as evidently intended: the columns take the headings sorted by
      case-folded name. */
  method PrepareSortedReport(members: map<string, Record>, headings: seq<string>)
    returns (report: Csv, ghost order: seq<string>)
    requires LoginFieldsPresent(members)
    ensures |report.columns| == 2 + |headings| && report.columns[..2] == ["login", "name"]
    ensures multiset(report.columns[2..]) == multiset(headings)
    ensures SortedBy(report.columns[2..], CaseFold)
    ensures Enumerates(order, members.Keys) && |report.rows| == |members|
    ensures multiset(report.rows) == multiset(ValuesIn(members, order))
    ensures SortedBy(report.rows, LoginKey)
  {
    var columnHeadings := SortBy(headings, CaseFold);
    SortBySorted(headings, CaseFold);
    assert |columnHeadings| == |headings| by {
      assert |multiset(columnHeadings)| == |multiset(headings)|;
    }
    var columns := ["login", "name"] + columnHeadings;
    assert columns[2..] == columnHeadings;
    var rows;
    rows, order := SortedRows(members);
    report := Csv(columns, rows);
  }
}
