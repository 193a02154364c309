/** The skills library shown in the settings: one row per skill, kept sorted by name
    while skills are saved and deleted. */
module SkillList {
  import opened Text

  datatype Skill = Skill(id: string, name: string, description: string, body: seq<bv8>, source: string,
                         createdAt: string, updatedAt: string)

  datatype Row = Row(id: string, name: string, description: string, bytes: nat, source: string,
                     createdAt: string, updatedAt: string)

  function Summary(skill: Skill): Row {
    Row(skill.id, skill.name, skill.description, |skill.body|, skill.source, skill.createdAt, skill.updatedAt)
  }

  // ---------------------------------------------------------------- ordering

  /** Names compare character by character, a prefix before its extensions. */
  predicate NameLe(a: string, b: string)
    decreases |a|
  {
    a == "" || (b != "" && (a[0] < b[0] || (a[0] == b[0] && NameLe(a[1..], b[1..]))))
  }

  lemma {:induction false} NameLeTotal(a: string, b: string)
    ensures NameLe(a, b) || NameLe(b, a)
    decreases |a|
  {
    if a != "" && b != "" {
      NameLeTotal(a[1..], b[1..]);
    }
  }

  lemma {:induction false} NameLeAntisymmetric(a: string, b: string)
    requires NameLe(a, b) && NameLe(b, a)
    ensures a == b
    decreases |a|
  {
    if a != "" && b != "" {
      NameLeAntisymmetric(a[1..], b[1..]);
      assert a == [a[0]] + a[1..] && b == [b[0]] + b[1..];
    }
  }

  lemma {:induction false} NameLeTransitive(a: string, b: string, c: string)
    requires NameLe(a, b) && NameLe(b, c)
    ensures NameLe(a, c)
    decreases |a|
  {
    if a != "" && a[0] == b[0] == c[0] {
      NameLeTransitive(a[1..], b[1..], c[1..]);
    }
  }

  /** That is: a prefix, or smaller at the first character where they differ. */
  lemma {:induction false} NameLeExactly(a: string, b: string)
    ensures NameLe(a, b) <==>
            a <= b || exists k :: 0 <= k < |a| && k < |b| && a[..k] == b[..k] && a[k] < b[k]
    decreases |a|
  {
    if a != "" && b != "" && a[0] == b[0] {
      var s, t := a[1..], b[1..];
      NameLeExactly(s, t);
      assert s <= t <==> a <= b by {
        assert a == [a[0]] + s && b == [a[0]] + t;
      }
      if k :| 0 <= k < |s| && k < |t| && s[..k] == t[..k] && s[k] < t[k] {
        assert a[..k + 1] == [a[0]] + s[..k] && b[..k + 1] == [a[0]] + t[..k];
        assert a[k + 1] < b[k + 1];
      }
      if k :| 0 <= k < |a| && k < |b| && a[..k] == b[..k] && a[k] < b[k] {
        assert s[..k - 1] == a[..k][1..] && t[..k - 1] == b[..k][1..];
        assert s[k - 1] < t[k - 1];
      }
    } else if a != "" && b != "" {
      if a[0] < b[0] {
        assert a[..0] == b[..0];
      }
      forall k | 0 < k < |a| && k < |b| ensures a[..k] != b[..k] {
        assert a[..k][0] == a[0] && b[..k][0] == b[0];
      }
    }
  }

  /** No name in `rows` comes before `name`. */
  predicate AllAfter(name: string, rows: seq<Row>)
    decreases |rows|
  {
    rows == [] || (NameLe(name, rows[0].name) && AllAfter(name, rows[1..]))
  }

  predicate Sorted(rows: seq<Row>)
    decreases |rows|
  {
    rows == [] || (AllAfter(rows[0].name, rows[1..]) && Sorted(rows[1..]))
  }

  lemma {:induction false} AllAfterTransitive(a: string, b: string, rows: seq<Row>)
    requires NameLe(a, b) && AllAfter(b, rows)
    ensures AllAfter(a, rows)
    decreases |rows|
  {
    if rows != [] {
      NameLeTransitive(a, b, rows[0].name);
      AllAfterTransitive(a, b, rows[1..]);
    }
  }

  // ------------------------------------------------------------- the sorting

  /** A row goes before the rows of its own name. */
  function Insert(row: Row, rows: seq<Row>): seq<Row>
    decreases |rows|
  {
    if rows == [] || NameLe(row.name, rows[0].name) then [row] + rows
    else [rows[0]] + Insert(row, rows[1..])
  }

  function Sort(rows: seq<Row>): seq<Row>
    decreases |rows|
  {
    if rows == [] then [] else Insert(rows[0], Sort(rows[1..]))
  }

  /** The rows of one name, in order. */
  function Named(rows: seq<Row>, name: string): seq<Row>
    decreases |rows|
  {
    if rows == [] then []
    else if rows[0].name == name then [rows[0]] + Named(rows[1..], name)
    else Named(rows[1..], name)
  }

  /** The rows of every other name, in order. */
  function Without(rows: seq<Row>, name: string): seq<Row>
    decreases |rows|
  {
    if rows == [] then []
    else if rows[0].name != name then [rows[0]] + Without(rows[1..], name)
    else Without(rows[1..], name)
  }

  lemma {:induction false} InsertAllAfter(a: string, row: Row, rows: seq<Row>)
    requires NameLe(a, row.name) && AllAfter(a, rows)
    ensures AllAfter(a, Insert(row, rows))
    decreases |rows|
  {
    if rows == [] || NameLe(row.name, rows[0].name) {
      assert ([row] + rows)[1..] == rows;
    } else {
      InsertAllAfter(a, row, rows[1..]);
      assert ([rows[0]] + Insert(row, rows[1..]))[1..] == Insert(row, rows[1..]);
    }
  }

  lemma {:induction false} InsertAdds(row: Row, rows: seq<Row>)
    ensures multiset(Insert(row, rows)) == multiset{row} + multiset(rows)
    decreases |rows|
  {
    if rows != [] && !NameLe(row.name, rows[0].name) {
      InsertAdds(row, rows[1..]);
      assert rows == [rows[0]] + rows[1..];
    }
  }

  lemma {:induction false} InsertSorts(row: Row, rows: seq<Row>)
    requires Sorted(rows)
    ensures Sorted(Insert(row, rows))
    decreases |rows|
  {
    if rows == [] {
    } else if NameLe(row.name, rows[0].name) {
      AllAfterTransitive(row.name, rows[0].name, rows[1..]);
      assert ([row] + rows)[1..] == rows;
    } else {
      NameLeTotal(row.name, rows[0].name);
      InsertSorts(row, rows[1..]);
      InsertAllAfter(rows[0].name, row, rows[1..]);
      assert ([rows[0]] + Insert(row, rows[1..]))[1..] == Insert(row, rows[1..]);
    }
  }

  lemma {:induction false} SortSorts(rows: seq<Row>)
    ensures Sorted(Sort(rows)) && multiset(Sort(rows)) == multiset(rows)
    decreases |rows|
  {
    if rows != [] {
      SortSorts(rows[1..]);
      InsertSorts(rows[0], Sort(rows[1..]));
      InsertAdds(rows[0], Sort(rows[1..]));
      assert rows == [rows[0]] + rows[1..];
    }
  }

  lemma {:induction false} InsertNamed(row: Row, rows: seq<Row>, name: string)
    requires Sorted(rows)
    ensures Named(Insert(row, rows), name) == if row.name == name then [row] + Named(rows, name) else Named(rows, name)
    decreases |rows|
  {
    if rows == [] || NameLe(row.name, rows[0].name) {
      assert ([row] + rows)[1..] == rows;
    } else {
      var tail := Insert(row, rows[1..]);
      InsertNamed(row, rows[1..], name);
      assert ([rows[0]] + tail)[1..] == tail;
      if rows[0].name == row.name {
        NameLeTotal(row.name, row.name);
      }
    }
  }

  /** Sorting keeps rows of the same name in their order. */
  lemma {:induction false} SortIsStable(rows: seq<Row>, name: string)
    ensures Named(Sort(rows), name) == Named(rows, name)
    decreases |rows|
  {
    if rows != [] {
      SortIsStable(rows[1..], name);
      SortSorts(rows[1..]);
      InsertNamed(rows[0], Sort(rows[1..]), name);
    }
  }

  lemma {:induction false} NamedIsAfter(a: string, rows: seq<Row>, name: string)
    requires AllAfter(a, rows) && Named(rows, name) != []
    ensures NameLe(a, name)
    decreases |rows|
  {
    if rows[0].name != name {
      NamedIsAfter(a, rows[1..], name);
    }
  }

  lemma NamedTail(rows: seq<Row>, name: string)
    requires rows != []
    ensures rows[0].name == name ==> Named(rows, name) != []
    ensures Named(rows[1..], name) == if rows[0].name == name then Named(rows, name)[1..] else Named(rows, name)
  {
  }

  /** Being sorted and keeping the order within every name leaves only one list. */
  lemma {:induction false} StableSortIsUnique(s: seq<Row>, t: seq<Row>)
    requires Sorted(s) && Sorted(t) && forall name :: Named(s, name) == Named(t, name)
    ensures s == t
    decreases |s|
  {
    if s == [] {
      if t != [] {
        NamedTail(t, t[0].name);
      }
    } else {
      assert Named(s, s[0].name) != [];
      SameHead(s, t);
      forall name ensures Named(s[1..], name) == Named(t[1..], name) {
        assert Named(s, name) == Named(t, name);
        NamedTail(s, name);
        NamedTail(t, name);
      }
      StableSortIsUnique(s[1..], t[1..]);
      assert s == [s[0]] + s[1..] && t == [t[0]] + t[1..];
    }
  }

  lemma SameHead(s: seq<Row>, t: seq<Row>)
    requires s != [] && t != [] && Sorted(s) && Sorted(t) && forall name :: Named(s, name) == Named(t, name)
    ensures s[0] == t[0]
  {
    var a, b := s[0].name, t[0].name;
    assert Named(t, a) == Named(s, a) && Named(s, b) == Named(t, b);
    NameLeTotal(a, a);
    NameLeTotal(b, b);
    NamedIsAfter(b, t, a);
    NamedIsAfter(a, s, b);
    NameLeAntisymmetric(a, b);
    assert Named(s, a)[0] == s[0] && Named(t, a)[0] == t[0];
  }

  lemma SortedStays(rows: seq<Row>)
    requires Sorted(rows)
    ensures Sort(rows) == rows
  {
    SortSorts(rows);
    forall name ensures Named(Sort(rows), name) == Named(rows, name) {
      SortIsStable(rows, name);
    }
    StableSortIsUnique(Sort(rows), rows);
  }

  // ----------------------------------------------------------------- deleting

  lemma {:induction false} WithoutNamed(rows: seq<Row>, name: string, other: string)
    ensures Named(Without(rows, name), other) == if other == name then [] else Named(rows, other)
    decreases |rows|
  {
    if rows != [] {
      WithoutNamed(rows[1..], name, other);
      if rows[0].name != name {
        assert ([rows[0]] + Without(rows[1..], name))[1..] == Without(rows[1..], name);
      }
    }
  }

  lemma {:induction false} WithoutSorted(rows: seq<Row>, name: string)
    requires Sorted(rows)
    ensures Sorted(Without(rows, name))
    ensures forall a :: AllAfter(a, rows) ==> AllAfter(a, Without(rows, name))
    decreases |rows|
  {
    if rows != [] {
      WithoutSorted(rows[1..], name);
      if rows[0].name != name {
        assert ([rows[0]] + Without(rows[1..], name))[1..] == Without(rows[1..], name);
      }
    }
  }

  /** Deleting and sorting can be done in either order. */
  lemma DeleteCommutesWithSort(rows: seq<Row>, name: string)
    ensures Without(Sort(rows), name) == Sort(Without(rows, name))
  {
    SortSorts(rows);
    SortSorts(Without(rows, name));
    WithoutSorted(Sort(rows), name);
    forall other ensures Named(Without(Sort(rows), name), other) == Named(Sort(Without(rows, name)), other) {
      WithoutNamed(Sort(rows), name, other);
      SortIsStable(rows, other);
      SortIsStable(Without(rows, name), other);
      WithoutNamed(rows, name, other);
    }
    StableSortIsUnique(Without(Sort(rows), name), Sort(Without(rows, name)));
  }

  // ------------------------------------------------------------------- saving

  predicate Matches(row: Row, summary: Row) {
    row.id == summary.id || row.name == summary.name
  }

  function FirstMatch(rows: seq<Row>, summary: Row): (r: Option<nat>)
    ensures r.Some? ==> r.value < |rows| && Matches(rows[r.value], summary)
    ensures forall i :: 0 <= i < (if r.Some? then r.value else |rows|) ==> !Matches(rows[i], summary)
    decreases |rows|
  {
    if rows == [] then None
    else if Matches(rows[0], summary) then Some(0)
    else
      match FirstMatch(rows[1..], summary)
      case None => None
      case Some(i) => Some(i + 1)
  }

  function Upserted(rows: seq<Row>, summary: Row): seq<Row> {
    match FirstMatch(rows, summary)
    case Some(i) => rows[i := summary]
    case None => rows + [summary]
  }

  function AfterSave(before: seq<Row>, saved: Skill): seq<Row> {
    Sort(Upserted(before, Summary(saved)))
  }

  method SkillsListAfterSave(before: seq<Row>, saved: Skill) returns (out: seq<Row>)
    ensures out == AfterSave(before, saved)
  {
    var summary := Summary(saved);
    out := before;
    var i := 0;
    while i < |out| && !Matches(out[i], summary)
      invariant i <= |out| && out == before
      invariant forall j :: 0 <= j < i ==> !Matches(out[j], summary)
    {
      i := i + 1;
    }
    if i < |out| {
      out := out[i := summary];
    } else {
      out := out + [summary];
    }
    out := Sort(out);
  }

  method SkillsListAfterDelete(before: seq<Row>, deleted: string) returns (out: seq<Row>)
    ensures out == Without(before, deleted)
  {
    out := [];
    for i := 0 to |before|
      invariant out + Without(before[i..], deleted) == Without(before, deleted)
    {
      assert before[i..][1..] == before[i + 1..];
      if before[i].name != deleted {
        out := out + [before[i]];
      }
    }
  }

  /** What a save does to the library: sorted, and one row of it is exchanged or added. */
  lemma SaveExchangesOneRow(before: seq<Row>, saved: Skill)
    ensures Sorted(AfterSave(before, saved)) && Summary(saved) in AfterSave(before, saved)
    ensures multiset(AfterSave(before, saved)) == multiset{Summary(saved)} +
              match FirstMatch(before, Summary(saved))
              case None => multiset(before)
              case Some(i) => multiset(before) - multiset{before[i]}
  {
    var summary := Summary(saved);
    var up := Upserted(before, summary);
    SortSorts(up);
    match FirstMatch(before, summary) {
      case None =>
      case Some(i) => ExchangeOne(before, i, summary);
    }
    assert summary in multiset(AfterSave(before, saved));
  }

  /** The saved skill is listed with everything but its body, of which it shows the size. */
  lemma SavedSkillIsListed(before: seq<Row>, saved: Skill) returns (row: Row)
    ensures row in AfterSave(before, saved)
    ensures row.id == saved.id && row.name == saved.name && row.description == saved.description
    ensures row.bytes == |saved.body| && row.source == saved.source
    ensures row.createdAt == saved.createdAt && row.updatedAt == saved.updatedAt
  {
    row := Summary(saved);
    SaveExchangesOneRow(before, saved);
  }

  lemma ExchangeOne(rows: seq<Row>, i: nat, row: Row)
    requires i < |rows|
    ensures multiset(rows[i := row]) == multiset{row} + (multiset(rows) - multiset{rows[i]})
  {
  }

  function NameOf(row: Row): string { row.name }

  function IdOf(row: Row): string { row.id }

  ghost predicate Distinct(key: Row -> string, rows: seq<Row>) {
    forall i, j :: 0 <= i < j < |rows| ==> key(rows[i]) != key(rows[j])
  }

  lemma {:induction false} TwoPlaces(rows: seq<Row>, i: nat, j: nat, r: Row)
    requires i < j < |rows| && rows[i] == rows[j] == r
    ensures multiset(rows)[r] >= 2
  {
    assert rows == rows[..j] + rows[j..];
    assert rows[..j][i] == r && rows[j..][0] == r;
    assert r in multiset(rows[..j]) && r in multiset(rows[j..]);
  }

  lemma {:induction false} TwoCopies(rows: seq<Row>, r: Row) returns (i: nat, j: nat)
    requires multiset(rows)[r] >= 2
    ensures i < j < |rows| && rows[i] == rows[j] == r
    decreases |rows|
  {
    assert rows == [rows[0]] + rows[1..];
    if rows[0] == r {
      assert r in multiset(rows[1..]);
      i := 0;
      var k :| 0 <= k < |rows[1..]| && rows[1..][k] == r;
      j := k + 1;
    } else {
      i, j := TwoCopies(rows[1..], r);
      i, j := i + 1, j + 1;
    }
  }

  /** Rearranging rows does not make two of them alike. */
  lemma PermutationKeepsDistinct(key: Row -> string, s: seq<Row>, t: seq<Row>)
    requires multiset(s) == multiset(t) && Distinct(key, t)
    ensures Distinct(key, s)
  {
    forall i, j | 0 <= i < j < |s| ensures key(s[i]) != key(s[j]) {
      if s[i] == s[j] {
        TwoPlaces(s, i, j, s[i]);
        var a, b := TwoCopies(t, s[i]);
      } else {
        assert s[i] in multiset(t) && s[j] in multiset(t);
        var a :| 0 <= a < |t| && t[a] == s[i];
        var b :| 0 <= b < |t| && t[b] == s[j];
        assert key(t[if a < b then a else b]) != key(t[if a < b then b else a]);
      }
    }
  }

  lemma SortKeepsDistinct(key: Row -> string, rows: seq<Row>)
    ensures Distinct(key, Sort(rows)) <==> Distinct(key, rows)
  {
    SortSorts(rows);
    if Distinct(key, rows) {
      PermutationKeepsDistinct(key, Sort(rows), rows);
    }
    if Distinct(key, Sort(rows)) {
      PermutationKeepsDistinct(key, rows, Sort(rows));
    }
  }

  lemma AddingKeepsDistinct(key: Row -> string, before: seq<Row>, summary: Row)
    requires Distinct(key, before) && forall i :: 0 <= i < |before| ==> key(before[i]) != key(summary)
    ensures Distinct(key, before + [summary])
  {
    var up := before + [summary];
    forall i, j | 0 <= i < j < |up| ensures key(up[i]) != key(up[j]) {
      assert up[i] == before[i];
    }
  }

  lemma ReplacingKeepsDistinctExactly(key: Row -> string, before: seq<Row>, i: nat, summary: Row)
    requires Distinct(key, before) && i < |before|
    ensures Distinct(key, before[i := summary]) <==>
            forall j :: 0 <= j < |before| && j != i ==> key(before[j]) != key(summary)
  {
    var up := before[i := summary];
    if Distinct(key, up) {
      forall j | 0 <= j < |before| && j != i ensures key(before[j]) != key(summary) {
        assert up[j] == before[j] && up[i] == summary;
        assert key(up[if i < j then i else j]) != key(up[if i < j then j else i]);
      }
    }
    if forall j :: 0 <= j < |before| && j != i ==> key(before[j]) != key(summary) {
      forall a, b | 0 <= a < b < |up| ensures key(up[a]) != key(up[b]) {
        assert up[a] == (if a == i then summary else before[a]);
        assert up[b] == (if b == i then summary else before[b]);
      }
    }
  }

  /** Saving keeps names, or ids, distinct exactly when no row other than the replaced one
      has the saved one. */
  lemma StayDistinctExactly(key: Row -> string, before: seq<Row>, saved: Skill)
    requires Distinct(key, before)
    requires forall i :: 0 <= i < |before| && key(before[i]) == key(Summary(saved)) ==>
               Matches(before[i], Summary(saved))
    ensures Distinct(key, AfterSave(before, saved)) <==>
            match FirstMatch(before, Summary(saved))
            case None => true
            case Some(i) => forall j :: 0 <= j < |before| && j != i ==> key(before[j]) != key(Summary(saved))
  {
    var summary := Summary(saved);
    SortKeepsDistinct(key, Upserted(before, summary));
    match FirstMatch(before, summary) {
      case None => AddingKeepsDistinct(key, before, summary);
      case Some(i) => ReplacingKeepsDistinctExactly(key, before, i, summary);
    }
  }

  lemma NamesStayDistinctExactly(before: seq<Row>, saved: Skill)
    requires Distinct(NameOf, before)
    ensures Distinct(NameOf, AfterSave(before, saved)) <==>
            match FirstMatch(before, Summary(saved))
            case None => true
            case Some(i) => forall j :: 0 <= j < |before| && j != i ==> before[j].name != saved.name
  {
    StayDistinctExactly(NameOf, before, saved);
  }

  lemma IdsStayDistinctExactly(before: seq<Row>, saved: Skill)
    requires Distinct(IdOf, before)
    ensures Distinct(IdOf, AfterSave(before, saved)) <==>
            match FirstMatch(before, Summary(saved))
            case None => true
            case Some(i) => forall j :: 0 <= j < |before| && j != i ==> before[j].id != saved.id
  {
    StayDistinctExactly(IdOf, before, saved);
  }

  /** Both exceptions are real: saving the first of two skills under the name of the second
      leaves two rows of that name, and saving the second under the name of the first, which
      the search finds first, leaves two rows of its id. */
  lemma OneSaveCanDuplicateAName(a: Row, b: Row, body: seq<bv8>)
    requires a.id != b.id && a.name != b.name
    ensures var saved := Skill(a.id, b.name, a.description, body, a.source, a.createdAt, a.updatedAt);
            Distinct(NameOf, [a, b]) && !Distinct(NameOf, AfterSave([a, b], saved))
  {
    var saved := Skill(a.id, b.name, a.description, body, a.source, a.createdAt, a.updatedAt);
    NamesStayDistinctExactly([a, b], saved);
    assert FirstMatch([a, b], Summary(saved)) == Some(0);
    assert [a, b][1].name == saved.name;
  }

  lemma OneSaveCanDuplicateAnId(a: Row, b: Row, body: seq<bv8>)
    requires a.id != b.id && a.name != b.name
    ensures var saved := Skill(b.id, a.name, b.description, body, b.source, b.createdAt, b.updatedAt);
            Distinct(IdOf, [a, b]) && !Distinct(IdOf, AfterSave([a, b], saved))
  {
    var saved := Skill(b.id, a.name, b.description, body, b.source, b.createdAt, b.updatedAt);
    IdsStayDistinctExactly([a, b], saved);
    assert FirstMatch([a, b], Summary(saved)) == Some(0);
    assert [a, b][1].id == saved.id;
  }

  lemma {:induction false} WithoutOfNone(rows: seq<Row>, name: string)
    requires forall i :: 0 <= i < |rows| ==> rows[i].name != name
    ensures Without(rows, name) == rows
    decreases |rows|
  {
    if rows != [] {
      WithoutOfNone(rows[1..], name);
      assert rows == [rows[0]] + rows[1..];
    }
  }

  lemma {:induction false} WithoutAppended(rows: seq<Row>, row: Row)
    ensures Without(rows + [row], row.name) == Without(rows, row.name)
    decreases |rows|
  {
    if rows == [] {
      assert [] + [row] == [row];
      assert [row][1..] == [];
    } else {
      assert (rows + [row])[1..] == rows[1..] + [row];
      WithoutAppended(rows[1..], row);
    }
  }

  lemma {:induction false} WithoutShrinks(rows: seq<Row>, name: string)
    ensures |Without(rows, name)| <= |rows|
    ensures (exists i :: 0 <= i < |rows| && rows[i].name == name) ==> |Without(rows, name)| < |rows|
    decreases |rows|
  {
    if rows != [] {
      WithoutShrinks(rows[1..], name);
      if i :| 0 <= i < |rows| && rows[i].name == name {
        if i > 0 {
          assert rows[1..][i - 1].name == name;
        }
      }
    }
  }

  /** Deleting right after saving undoes the save of a sorted library exactly when the
      save added a row; when it replaced one, that row is gone. */
  lemma SaveThenDeleteExactly(before: seq<Row>, saved: Skill)
    requires Sorted(before)
    ensures Without(AfterSave(before, saved), saved.name) == before <==> FirstMatch(before, Summary(saved)).None?
  {
    var summary := Summary(saved);
    match FirstMatch(before, summary) {
      case None =>
        DeleteCommutesWithSort(before + [summary], saved.name);
        WithoutAppended(before, summary);
        WithoutOfNone(before, saved.name);
        SortedStays(before);
      case Some(i) =>
        var up := before[i := summary];
        SortSorts(up);
        SameSize(Sort(up), up);
        assert summary in multiset(up) by { assert up[i] == summary; }
        assert summary in Sort(up);
        WithoutShrinks(Sort(up), saved.name);
    }
  }

  lemma SameSize(s: seq<Row>, t: seq<Row>)
    requires multiset(s) == multiset(t)
    ensures |s| == |t|
  {
    assert |multiset(s)| == |s| && |multiset(t)| == |t|;
  }

  lemma OnlyTheSummaryMatches(before: seq<Row>, summary: Row, j: nat)
    requires j < |Upserted(before, summary)| && Matches(Upserted(before, summary)[j], summary)
    requires forall i :: 0 <= i < |before| && FirstMatch(before, summary) != Some(i) ==> !Matches(before[i], summary)
    ensures Upserted(before, summary)[j] == summary
  {
  }

  lemma MemberOfSort(rows: seq<Row>, k: nat) returns (j: nat)
    requires k < |Sort(rows)|
    ensures j < |rows| && rows[j] == Sort(rows)[k]
  {
    SortSorts(rows);
    assert Sort(rows)[k] in multiset(rows);
    j :| j < |rows| && rows[j] == Sort(rows)[k];
  }

  lemma ReplaceWithItself(rows: seq<Row>, summary: Row)
    requires Sorted(rows) && FirstMatch(rows, summary).Some?
    requires rows[FirstMatch(rows, summary).value] == summary
    ensures Sort(Upserted(rows, summary)) == rows
  {
    var k := FirstMatch(rows, summary).value;
    assert rows[k := summary] == rows;
    SortedStays(rows);
  }

  /** Saving the same skill again changes nothing, when at most one row matched it. */
  lemma SavingTwiceIsSavingOnce(before: seq<Row>, saved: Skill)
    requires forall i :: 0 <= i < |before| && FirstMatch(before, Summary(saved)) != Some(i) ==>
               !Matches(before[i], Summary(saved))
    ensures AfterSave(AfterSave(before, saved), saved) == AfterSave(before, saved)
  {
    var summary := Summary(saved);
    var out := AfterSave(before, saved);
    SaveExchangesOneRow(before, saved);
    var k := FirstMatch(out, summary).value;
    var j := MemberOfSort(Upserted(before, summary), k);
    OnlyTheSummaryMatches(before, summary, j);
    ReplaceWithItself(out, summary);
  }
}
