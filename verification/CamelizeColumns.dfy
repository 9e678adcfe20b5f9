/** Renaming the columns of query results to camel case, in place. */
module CamelizeColumns {
  datatype Cell<V> = Undefined | Cell(value: V)

  type Row<V> = map<string, Cell<V>>

  /** `camelize` is the name conversion and `inherited` the property names that every object has
      from its prototype. */
  datatype Names = Names(camelize: string -> string, inherited: set<string>)

  datatype Rename = Rename(from: string, to: string)

  /** What happens to one row: the new property gets the old one's value (if there is none, it
      is `undefined`), and the old property is deleted. */
  function RenameCell<V>(row: Row<V>, r: Rename): Row<V> {
    row[r.to := if r.from in row then row[r.from] else Undefined] - {r.from}
  }

  function RenameRow<V>(row: Row<V>, renames: seq<Rename>): Row<V> {
    if renames == [] then row
    else RenameCell(RenameRow(row, renames[..|renames| - 1]), renames[|renames| - 1])
  }

  function KeysAfter(keys: set<string>, renames: seq<Rename>): set<string> {
    if renames == [] then keys
    else KeysAfter(keys, renames[..|renames| - 1]) + {renames[|renames| - 1].to} - {renames[|renames| - 1].from}
  }

  /** The renames that are made when the columns of the first row are visited in this order. */
  function Plan(n: Names, keys: set<string>, columns: seq<string>): seq<Rename> {
    if columns == [] then []
    else
      var before := Plan(n, keys, columns[..|columns| - 1]);
      var prop := columns[|columns| - 1];
      var camel := n.camelize(prop);
      if camel in KeysAfter(keys, before) || camel in n.inherited then before
      else before + [Rename(prop, camel)]
  }

  lemma {:induction false} KeysOfRenamedRow<V>(row: Row<V>, renames: seq<Rename>)
    ensures RenameRow(row, renames).Keys == KeysAfter(row.Keys, renames)
  {
    if renames != [] {
      KeysOfRenamedRow(row, renames[..|renames| - 1]);
    }
  }

  /** Columns are visited in the order `columns`. (Names that the loop itself adds to the row may
      or may not be visited as well; visiting one changes nothing, see VisitingCamelNames.) */
  method CamelizeColumns<V>(data: array<Row<V>>, columns: seq<string>, n: Names)
    requires data.Length == 0 ==> columns == []
    modifies data
    ensures data.Length > 0 ==>
      var plan := Plan(n, old(data[0]).Keys, columns);
      forall i | 0 <= i < data.Length :: data[i] == RenameRow(old(data[i]), plan)
  {
    if data.Length == 0 {
      return;
    }
    ghost var keys := data[0].Keys;
    for k := 0 to |columns|
      invariant forall i | 0 <= i < data.Length ::
        data[i] == RenameRow(old(data[i]), Plan(n, keys, columns[..k]))
    {
      var prop := columns[k];
      var camel := n.camelize(prop);
      ghost var before := Plan(n, keys, columns[..k]);
      assert columns[..k + 1][..k] == columns[..k];
      KeysOfRenamedRow(old(data[0]), before);
      if camel !in data[0] && camel !in n.inherited {
        RenameColumn(data, prop, camel);
        assert (before + [Rename(prop, camel)])[..|before|] == before;
      }
    }
    assert columns[..|columns|] == columns;
  }

  /** The inner loop. */
  method RenameColumn<V>(data: array<Row<V>>, prop: string, camel: string)
    modifies data
    ensures forall i | 0 <= i < data.Length :: data[i] == RenameCell(old(data[i]), Rename(prop, camel))
    ensures forall i, k | 0 <= i < data.Length && k != prop :: k in data[i] <==> k == camel || k in old(data[i])
    ensures forall i, k | 0 <= i < data.Length && k != prop && k != camel && k in old(data[i]) ::
      data[i][k] == old(data[i])[k]
    ensures forall i | 0 <= i < data.Length && prop != camel ::
      prop !in data[i] && data[i][camel] == if prop in old(data[i]) then old(data[i])[prop] else Undefined
  {
    for i := 0 to data.Length
      invariant forall j | 0 <= j < i :: data[j] == RenameCell(old(data[j]), Rename(prop, camel))
      invariant forall j | i <= j < data.Length :: data[j] == old(data[j])
    {
      data[i] := data[i][camel := if prop in data[i] then data[i][prop] else Undefined];
      data[i] := data[i] - {prop};
    }
  }

  // ----- What the renames amount to -----

  ghost predicate Idempotent(n: Names) {
    forall s :: n.camelize(n.camelize(s)) == n.camelize(s)
  }

  /** The columns visited are columns of the row, each at most once. */
  ghost predicate Visits(keys: set<string>, columns: seq<string>) {
    && (forall i | 0 <= i < |columns| :: columns[i] in keys)
    && (forall i, j | 0 <= i < j < |columns| :: columns[i] != columns[j])
  }

  /** The name under which the column `k` is found after the renames. */
  function NameAfter(k: string, renames: seq<Rename>): string {
    if renames == [] then k
    else
      var name := NameAfter(k, renames[..|renames| - 1]);
      if name == renames[|renames| - 1].from then renames[|renames| - 1].to else name
  }

  /** The renaming keeps columns apart and only uses camel names. */
  ghost predicate ProperRenaming(n: Names, keys: set<string>, renames: seq<Rename>) {
    && (forall k | k in keys ::
          NameAfter(k, renames) in KeysAfter(keys, renames)
          && (NameAfter(k, renames) == k || NameAfter(k, renames) == n.camelize(k)))
    && (forall name | name in KeysAfter(keys, renames) :: exists k :: k in keys && NameAfter(k, renames) == name)
    && (forall j, k | j in keys && k in keys && NameAfter(j, renames) == NameAfter(k, renames) :: j == k)
  }

  lemma NameAfterMore(k: string, renames: seq<Rename>, r: Rename)
    ensures NameAfter(k, renames + [r]) ==
      if NameAfter(k, renames) == r.from then r.to else NameAfter(k, renames)
  {
    assert (renames + [r])[..|renames|] == renames;
  }

  lemma KeysAfterMore(keys: set<string>, renames: seq<Rename>, r: Rename)
    ensures KeysAfter(keys, renames + [r]) == KeysAfter(keys, renames) + {r.to} - {r.from}
  {
    assert (renames + [r])[..|renames|] == renames;
  }

  lemma OneMoreRename(n: Names, keys: set<string>, renames: seq<Rename>, prop: string)
    requires ProperRenaming(n, keys, renames) && prop in keys && NameAfter(prop, renames) == prop
    requires n.camelize(prop) !in KeysAfter(keys, renames)
    ensures ProperRenaming(n, keys, renames + [Rename(prop, n.camelize(prop))])
  {
    var r := Rename(prop, n.camelize(prop));
    var more := renames + [r];
    KeysAfterMore(keys, renames, r);
    forall k ensures NameAfter(k, more) == if NameAfter(k, renames) == r.from then r.to else NameAfter(k, renames) {
      NameAfterMore(k, renames, r);
    }
    forall name | name in KeysAfter(keys, more) ensures exists k :: k in keys && NameAfter(k, more) == name {
      if name == r.to {
        assert NameAfter(prop, more) == name;
      } else {
        var k :| k in keys && NameAfter(k, renames) == name;
        assert NameAfter(k, more) == name;
      }
    }
  }

  lemma {:induction false} PlanIsProper(n: Names, keys: set<string>, columns: seq<string>)
    requires Visits(keys, columns)
    ensures ProperRenaming(n, keys, Plan(n, keys, columns))
    ensures forall k | k !in columns :: NameAfter(k, Plan(n, keys, columns)) != k ==> k !in keys
  {
    if columns != [] {
      var front, prop := columns[..|columns| - 1], columns[|columns| - 1];
      assert columns == front + [prop];
      PlanIsProper(n, keys, front);
      var before := Plan(n, keys, front);
      assert NameAfter(prop, before) == prop;
      if Plan(n, keys, columns) != before {
        OneMoreRename(n, keys, before, prop);
        forall k | k in keys && k !in columns ensures NameAfter(k, Plan(n, keys, columns)) == k {
          NameAfterMore(k, before, Rename(prop, n.camelize(prop)));
        }
      }
    }
  }

  lemma RenameRowMore<V>(row: Row<V>, renames: seq<Rename>, r: Rename)
    ensures RenameRow(row, renames + [r]) == RenameCell(RenameRow(row, renames), r)
  {
    assert (renames + [r])[..|renames|] == renames;
  }

  /** Every cell is found, unchanged, under the column's new name. */
  lemma {:induction false} CellIsKept<V>(n: Names, row: Row<V>, columns: seq<string>, k: string)
    requires Visits(row.Keys, columns) && k in row
    ensures
      var plan := Plan(n, row.Keys, columns);
      var after := RenameRow(row, plan);
      NameAfter(k, plan) in after && after[NameAfter(k, plan)] == row[k]
  {
    if columns != [] {
      var front, prop := columns[..|columns| - 1], columns[|columns| - 1];
      CellIsKept(n, row, front, k);
      var before := Plan(n, row.Keys, front);
      KeysOfRenamedRow(row, before);
      if Plan(n, row.Keys, columns) != before {
        var r := Rename(prop, n.camelize(prop));
        assert Plan(n, row.Keys, columns) == before + [r];
        RenameRowMore(row, before, r);
        NameAfterMore(k, before, r);
        var after := RenameRow(row, before);
        assert after[NameAfter(k, before)] == row[k] && r.to !in after;
      }
    }
  }

  /** For rows with the same columns there is one injective renaming for all of them, which
      sends each column to itself or to its camel name; no cell is lost or overwritten. */
  lemma CamelizedRows<V>(n: Names, rows: seq<Row<V>>, columns: seq<string>)
    requires rows != [] && Visits(rows[0].Keys, columns)
    requires forall i | 0 <= i < |rows| :: rows[i].Keys == rows[0].Keys
    ensures
      var keys := rows[0].Keys;
      var plan := Plan(n, keys, columns);
      && (forall k | k in keys :: NameAfter(k, plan) == k || NameAfter(k, plan) == n.camelize(k))
      && (forall j, k | j in keys && k in keys && NameAfter(j, plan) == NameAfter(k, plan) :: j == k)
      && (forall i | 0 <= i < |rows| ::
            var after := RenameRow(rows[i], plan);
            && (forall name :: name in after <==> exists k :: k in keys && NameAfter(k, plan) == name)
            && (forall k | k in keys :: NameAfter(k, plan) in after && after[NameAfter(k, plan)] == rows[i][k]))
  {
    var keys := rows[0].Keys;
    PlanIsProper(n, keys, columns);
    forall i | 0 <= i < |rows|
      ensures RenameRow(rows[i], Plan(n, keys, columns)).Keys == KeysAfter(keys, Plan(n, keys, columns))
    {
      KeysOfRenamedRow(rows[i], Plan(n, keys, columns));
    }
    forall i, k | 0 <= i < |rows| && k in keys
      ensures
        var plan := Plan(n, keys, columns);
        var after := RenameRow(rows[i], plan);
        NameAfter(k, plan) in after && after[NameAfter(k, plan)] == rows[i][k]
    {
      CellIsKept(n, rows[i], columns, k);
    }
  }

  // ----- Which columns are renamed, and the second run -----

  /** A camel name that is taken stays taken: its own turn would not rename it. */
  lemma {:induction false} CamelNamesStay(n: Names, keys: set<string>, columns: seq<string>, prop: string)
    requires Idempotent(n) && Visits(keys, columns)
    requires n.camelize(prop) in keys || prop in columns
    ensures n.camelize(prop) in KeysAfter(keys, Plan(n, keys, columns)) || n.camelize(prop) in n.inherited
  {
    if columns != [] {
      var front, last := columns[..|columns| - 1], columns[|columns| - 1];
      assert columns == front + [last];
      var before, camel := Plan(n, keys, front), n.camelize(prop);
      KeysAfterMore(keys, before, Rename(last, n.camelize(last)));
      if camel in keys || prop in front {
        CamelNamesStay(n, keys, front, prop);
        if last == camel {
          assert n.camelize(last) == camel;
        }
      }
    }
  }

  /** A column keeps its name exactly if its camel name is a column already, an inherited name,
      or the camel name of a column visited before it. */
  lemma RenamedColumns(n: Names, keys: set<string>, columns: seq<string>, at: nat)
    requires Idempotent(n) && Visits(keys, columns) && at < |columns|
    ensures
      var camel := n.camelize(columns[at]);
      NameAfter(columns[at], Plan(n, keys, columns)) == columns[at] <==>
        || camel in keys || camel in n.inherited
        || exists i :: 0 <= i < at && n.camelize(columns[i]) == camel
  {
    LaterColumnsDoNotMatter(n, keys, columns, at);
    var front, prop := columns[..at], columns[at];
    assert columns[..at + 1][..at] == front;
    var before, camel := Plan(n, keys, front), n.camelize(prop);
    PlanIsProper(n, keys, front);
    assert NameAfter(prop, before) == prop;
    NameAfterMore(prop, before, Rename(prop, camel));
    if camel in keys {
      CamelNamesStay(n, keys, front, prop);
    } else if i :| 0 <= i < at && n.camelize(columns[i]) == camel {
      assert front[i] == columns[i];
      CamelNamesStay(n, keys, front, columns[i]);
    }
  }

  lemma {:induction false} LaterColumnsDoNotMatter(n: Names, keys: set<string>, columns: seq<string>, at: nat)
    requires Visits(keys, columns) && at < |columns|
    ensures NameAfter(columns[at], Plan(n, keys, columns[..at + 1])) == NameAfter(columns[at], Plan(n, keys, columns))
  {
    if at + 1 == |columns| {
      assert columns[..at + 1] == columns;
    } else {
      var front, last := columns[..|columns| - 1], columns[|columns| - 1];
      assert front[..at + 1] == columns[..at + 1];
      LaterColumnsDoNotMatter(n, keys, front, at);
      PlanIsProper(n, keys, front);
      var before := Plan(n, keys, front);
      assert last !in front;
      assert NameAfter(last, before) == last;
      NameAfterMore(columns[at], before, Rename(last, n.camelize(last)));
    }
  }

  lemma {:induction false} NothingToRename(n: Names, keys: set<string>, columns: seq<string>)
    requires forall i | 0 <= i < |columns| :: n.camelize(columns[i]) in keys || n.camelize(columns[i]) in n.inherited
    ensures Plan(n, keys, columns) == []
  {
    if columns != [] {
      NothingToRename(n, keys, columns[..|columns| - 1]);
    }
  }

  /** After a run over all the columns, a second run renames nothing, whatever its order. */
  lemma SecondRunChangesNothing(n: Names, keys: set<string>, columns: seq<string>, again: seq<string>)
    requires Idempotent(n) && Visits(keys, columns) && forall k | k in keys :: k in columns
    requires Visits(KeysAfter(keys, Plan(n, keys, columns)), again)
    ensures Plan(n, KeysAfter(keys, Plan(n, keys, columns)), again) == []
  {
    var plan := Plan(n, keys, columns);
    var now := KeysAfter(keys, plan);
    PlanIsProper(n, keys, columns);
    forall i | 0 <= i < |again| ensures n.camelize(again[i]) in now || n.camelize(again[i]) in n.inherited {
      var k :| k in keys && NameAfter(k, plan) == again[i];
      CamelNamesStay(n, keys, columns, k);
      assert n.camelize(again[i]) == n.camelize(k);
    }
    NothingToRename(n, now, again);
  }

  lemma PlanMore(n: Names, keys: set<string>, columns: seq<string>, prop: string)
    ensures
      var before, camel := Plan(n, keys, columns), n.camelize(prop);
      Plan(n, keys, columns + [prop]) ==
        before + if camel in KeysAfter(keys, before) || camel in n.inherited then [] else [Rename(prop, camel)]
  {
    assert (columns + [prop])[..|columns|] == columns;
  }

  /** Visiting a name that is already in camel case renames nothing and changes nothing for the
      columns that are visited after it. */
  lemma {:induction false} VisitingCamelNames(
      n: Names, keys: set<string>, columns: seq<string>, camel: string, rest: seq<string>)
    requires n.camelize(camel) == camel && camel in KeysAfter(keys, Plan(n, keys, columns))
    ensures Plan(n, keys, columns + [camel] + rest) == Plan(n, keys, columns + rest)
    decreases |rest|
  {
    if rest == [] {
      PlanMore(n, keys, columns, camel);
      assert columns + [camel] + rest == columns + [camel] && columns + rest == columns;
    } else {
      var front, last := rest[..|rest| - 1], rest[|rest| - 1];
      VisitingCamelNames(n, keys, columns, camel, front);
      assert columns + [camel] + rest == (columns + [camel] + front) + [last];
      assert columns + rest == (columns + front) + [last];
      PlanMore(n, keys, columns + [camel] + front, last);
      PlanMore(n, keys, columns + front, last);
    }
  }
}
