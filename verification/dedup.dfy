/** The merge stage: concatenate the staged CSV files in the order the
    directory listing returned them, then keep the first row of every UEN
    (pandas `drop_duplicates(subset=["uen"], keep="first")`). */
module Dedup {
  import opened Wrappers
  import opened Seqs

  /** The keys occurring in `rows`. */
  function KeySet<T, K>(rows: seq<T>, key: T -> K): set<K> {
    if rows == [] then {} else {key(rows[0])} + KeySet(rows[1..], key)
  }

  predicate UniqueKeys<T, K(==)>(rows: seq<T>, key: T -> K) {
    forall i, j :: 0 <= i < j < |rows| ==> key(rows[i]) != key(rows[j])
  }

  /** Index of the first row carrying key `k`. */
  function FirstIndex<T, K(==)>(rows: seq<T>, key: T -> K, k: K): (i: nat)
    requires k in KeySet(rows, key)
    ensures i < |rows| && key(rows[i]) == k
    ensures forall j :: 0 <= j < i ==> key(rows[j]) != k
  {
    if key(rows[0]) == k then 0 else 1 + FirstIndex(rows[1..], key, k)
  }

  /** The pandas `duplicated(keep="first")` scan: a row is kept when its key
      has not been seen earlier in the scan; `seen` holds the keys met so far. */
  function KeepFirstFrom<T, K>(rows: seq<T>, key: T -> K, seen: set<K>): seq<T> {
    if rows == [] then []
    else if key(rows[0]) in seen then KeepFirstFrom(rows[1..], key, seen)
    else [rows[0]] + KeepFirstFrom(rows[1..], key, seen + {key(rows[0])})
  }

  function KeepFirst<T, K(==)>(rows: seq<T>, key: T -> K): seq<T> {
    KeepFirstFrom(rows, key, {})
  }

  lemma {:induction false} KeySetHas<T, K>(rows: seq<T>, key: T -> K, i: nat)
    requires i < |rows|
    ensures key(rows[i]) in KeySet(rows, key)
    decreases i
  {
    if i > 0 {
      KeySetHas(rows[1..], key, i - 1);
    }
  }

  lemma UniqueCons<T, K>(x: T, rest: seq<T>, key: T -> K)
    requires UniqueKeys(rest, key) && key(x) !in KeySet(rest, key)
    ensures UniqueKeys([x] + rest, key)
  {
    var s := [x] + rest;
    forall i, j | 0 <= i < j < |s|
      ensures key(s[i]) != key(s[j])
    {
      if i == 0 {
        KeySetHas(rest, key, j - 1);
      } else {
        assert s[i] == rest[i - 1] && s[j] == rest[j - 1];
      }
    }
  }

  /** The scan keeps exactly the unseen keys, each once, in input order. */
  lemma {:induction false} KeepFirstFromSound<T, K>(rows: seq<T>, key: T -> K, seen: set<K>)
    ensures KeySet(KeepFirstFrom(rows, key, seen), key) == KeySet(rows, key) - seen
    ensures UniqueKeys(KeepFirstFrom(rows, key, seen), key)
    ensures IsSubseq(KeepFirstFrom(rows, key, seen), rows)
    decreases |rows|
  {
    if rows != [] {
      var k := key(rows[0]);
      var r := KeepFirstFrom(rows, key, seen);
      if k in seen {
        KeepFirstFromSound(rows[1..], key, seen);
        assert r == KeepFirstFrom(rows[1..], key, seen);
      } else {
        var rest := KeepFirstFrom(rows[1..], key, seen + {k});
        KeepFirstFromSound(rows[1..], key, seen + {k});
        assert r == [rows[0]] + rest;
        assert r[1..] == rest;
        UniqueCons(rows[0], rest, key);
      }
    }
  }

  /** Every kept row is the first row of the input that carries its key. */
  lemma {:induction false} KeepFirstFromPicksFirst<T, K>(rows: seq<T>, key: T -> K, seen: set<K>, i: nat)
    requires i < |KeepFirstFrom(rows, key, seen)|
    ensures key(KeepFirstFrom(rows, key, seen)[i]) in KeySet(rows, key) - seen
    ensures KeepFirstFrom(rows, key, seen)[i] == rows[FirstIndex(rows, key, key(KeepFirstFrom(rows, key, seen)[i]))]
    decreases |rows|
  {
    var r := KeepFirstFrom(rows, key, seen);
    KeepFirstFromSound(rows, key, seen);
    KeySetHas(r, key, i);
    var k0 := key(rows[0]);
    if k0 in seen {
      assert r == KeepFirstFrom(rows[1..], key, seen);
      KeepFirstFromPicksFirst(rows[1..], key, seen, i);
    } else if i > 0 {
      var rest := KeepFirstFrom(rows[1..], key, seen + {k0});
      assert r == [rows[0]] + rest && r[i] == rest[i - 1];
      KeepFirstFromPicksFirst(rows[1..], key, seen + {k0}, i - 1);
    }
  }

  /** Input that already has unique keys, none of them seen, passes unchanged. */
  lemma {:induction false} KeepFirstFromUnique<T, K>(rows: seq<T>, key: T -> K, seen: set<K>)
    requires UniqueKeys(rows, key)
    requires KeySet(rows, key) * seen == {}
    ensures KeepFirstFrom(rows, key, seen) == rows
    decreases |rows|
  {
    if rows != [] {
      var k := key(rows[0]);
      assert UniqueKeys(rows[1..], key) by {
        forall i, j | 0 <= i < j < |rows| - 1
          ensures key(rows[1..][i]) != key(rows[1..][j])
        {
          assert rows[1..][i] == rows[i + 1] && rows[1..][j] == rows[j + 1];
        }
      }
      assert k !in KeySet(rows[1..], key) by {
        if k in KeySet(rows[1..], key) {
          var j := FirstIndex(rows[1..], key, k);
          assert false;
        }
      }
      KeepFirstFromUnique(rows[1..], key, seen + {k});
    }
  }

  /** One staged CSV row: the UEN column (`None` is a NaN cell) and the other
      columns, which the merge carries through untouched. */
  datatype Row = Row(uen: Option<string>, columns: seq<Option<string>>)

  function UenOf(r: Row): Option<string> { r.uen }

  /** `drop_duplicates(subset=[key], keep="first")`: one row per key, each
      the first row of the input carrying that key, in input order. */
  function DropDuplicates<T, K(==)>(rows: seq<T>, key: T -> K): (out: seq<T>)
    ensures UniqueKeys(out, key)
    ensures KeySet(out, key) == KeySet(rows, key)
    ensures IsSubseq(out, rows)
    ensures forall i :: 0 <= i < |out| ==> key(out[i]) in KeySet(rows, key)
    ensures forall i :: 0 <= i < |out| ==> out[i] == rows[FirstIndex(rows, key, key(out[i]))]
  {
    KeepFirstFromSound(rows, key, {});
    var out := KeepFirst(rows, key);
    forall i | 0 <= i < |out|
      ensures key(out[i]) in KeySet(rows, key)
      ensures out[i] == rows[FirstIndex(rows, key, key(out[i]))]
    {
      KeepFirstFromPicksFirst(rows, key, {}, i);
    }
    out
  }

  /** The scan keeps keys in the order of their first occurrence. */
  lemma {:induction false} KeepFirstFromOrdered<T, K>(rows: seq<T>, key: T -> K, seen: set<K>, i: nat, j: nat)
    requires i < j < |KeepFirstFrom(rows, key, seen)|
    ensures var r := KeepFirstFrom(rows, key, seen);
      && key(r[i]) in KeySet(rows, key) && key(r[j]) in KeySet(rows, key)
      && FirstIndex(rows, key, key(r[i])) < FirstIndex(rows, key, key(r[j]))
    decreases |rows|
  {
    var r := KeepFirstFrom(rows, key, seen);
    KeepFirstFromPicksFirst(rows, key, seen, i);
    KeepFirstFromPicksFirst(rows, key, seen, j);
    var k0 := key(rows[0]);
    if k0 in seen {
      assert r == KeepFirstFrom(rows[1..], key, seen);
      KeepFirstFromOrdered(rows[1..], key, seen, i, j);
    } else {
      var rest := KeepFirstFrom(rows[1..], key, seen + {k0});
      assert r == [rows[0]] + rest && r[j] == rest[j - 1];
      KeepFirstFromPicksFirst(rows[1..], key, seen + {k0}, j - 1);
      if i > 0 {
        assert r[i] == rest[i - 1];
        KeepFirstFromOrdered(rows[1..], key, seen + {k0}, i - 1, j - 1);
      }
    }
  }

  /** `drop_duplicates(keep="first")` keeps the keys in the order in which
      they first occur. */
  lemma DropDuplicatesOrdered<T, K>(rows: seq<T>, key: T -> K, i: nat, j: nat)
    requires i < j < |DropDuplicates(rows, key)|
    ensures var out := DropDuplicates(rows, key);
      FirstIndex(rows, key, key(out[i])) < FirstIndex(rows, key, key(out[j]))
  {
    KeepFirstFromOrdered(rows, key, {}, i, j);
  }

  /** The merged, deduplicated frame written by the merge script. pandas
      treats all NaN UENs as one key, as `None == None` does here. With no
      staged file `pd.concat` raises and nothing is written: `None`. */
  function Merge(files: seq<seq<Row>>): (r: Option<seq<Row>>)
    ensures r.None? <==> files == []
    ensures r.Some? ==> UniqueKeys(r.value, UenOf)
    ensures r.Some? ==> KeySet(r.value, UenOf) == KeySet(Flatten(files), UenOf)
    ensures r.Some? ==> IsSubseq(r.value, Flatten(files))
    ensures r.Some? ==> forall i :: 0 <= i < |r.value| ==> r.value[i].uen in KeySet(Flatten(files), UenOf)
    ensures r.Some? ==> forall i :: 0 <= i < |r.value| ==>
      r.value[i] == Flatten(files)[FirstIndex(Flatten(files), UenOf, r.value[i].uen)]
  {
    if files == [] then None else Some(DropDuplicates(Flatten(files), UenOf))
  }

  /** Running the deduplication again over its own output changes nothing. */
  lemma MergeIdempotent(files: seq<seq<Row>>)
    requires files != []
    ensures KeepFirst(Merge(files).value, UenOf) == Merge(files).value
    ensures Merge([Merge(files).value]) == Merge(files)
  {
    var m := Merge(files).value;
    KeepFirstFromUnique(m, UenOf, {});
    assert Flatten([m]) == m + Flatten([m][1..]);
    assert [m][1..] == [];
    assert Flatten([m]) == m;
    assert Merge([m]) == Some(KeepFirst(Flatten([m]), UenOf));
  }

  /** The worked example: `A1` keeps its first row, the later `A1` is dropped. */
  lemma MergeExample()
    ensures Merge([[Row(Some("A1"), [Some("X")]), Row(Some("A2"), [Some("Y")])],
                   [Row(Some("A1"), [Some("X-dup")])]])
            == Some([Row(Some("A1"), [Some("X")]), Row(Some("A2"), [Some("Y")])])
  {
    var a := Row(Some("A1"), [Some("X")]);
    var b := Row(Some("A2"), [Some("Y")]);
    var c := Row(Some("A1"), [Some("X-dup")]);
    assert Flatten([[a, b], [c]]) == [a, b, c] by {
      assert Flatten([[c]]) == [c] + Flatten([]);
    }
    assert KeepFirstFrom([c], UenOf, {Some("A1"), Some("A2")}) == [];
    assert [b, c][1..] == [c] && [a, b, c][1..] == [b, c];
    assert {Some("A1")} + {Some("A2")} == {Some("A1"), Some("A2")};
    assert {} + {Some("A1")} == {Some("A1")};
    assert KeepFirstFrom([b, c], UenOf, {Some("A1")}) == [b];
    assert KeepFirstFrom([a, b, c], UenOf, {}) == [a, b];
  }
}
