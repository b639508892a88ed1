/**
  The category selection state of index.js, `activeLocations`: a JavaScript object from category
  name to an "active" flag. String keys of a JavaScript object keep the order in which they were
  first set, so the object is modelled as a sequence of (name, flag) entries.
*/
module Selection {

  /** `hiddenLocTypes`: categories that never get a checkbox or an entry. */
  const HiddenNames: seq<string> := [
    "Latest Location",
    "Areas you may have visited in the last two years",
    "Businesses you may have visited in the last two years",
    "Frequent Locations"
  ]

  type Entries = seq<(string, bool)>

  /** The keys of an ordered object, in order (`Object.keys`). */
  function Keys<V>(es: seq<(string, V)>): (ks: seq<string>)
    ensures |ks| == |es|
  {
    seq(|es|, i requires 0 <= i < |es| => es[i].0)
  }

  predicate Distinct(ns: seq<string>) {
    forall i, j | 0 <= i < j < |ns| :: ns[i] != ns[j]
  }

  /** `obj[k] = v` on a JavaScript object: an existing key keeps its place, a new key goes last. */
  function Assign(sel: Entries, k: string, v: bool): Entries
    decreases |sel|
  {
    if sel == [] then [(k, v)]
    else if sel[0].0 == k then [(k, v)] + sel[1..]
    else [sel[0]] + Assign(sel[1..], k, v)
  }

  /**
    Assigning a key changes that key's entry only: when it is present, every other entry and the
    key order stay as they were; when it is absent, it is appended. Keys stay distinct.
  */
  lemma {:induction false} AssignSpec(sel: Entries, k: string, v: bool)
    requires Distinct(Keys(sel))
    ensures k in Keys(sel) ==> |Assign(sel, k, v)| == |sel| && Keys(Assign(sel, k, v)) == Keys(sel)
    ensures k in Keys(sel) ==>
      forall i | 0 <= i < |sel| :: Assign(sel, k, v)[i] == if sel[i].0 == k then (k, v) else sel[i]
    ensures k !in Keys(sel) ==> Assign(sel, k, v) == sel + [(k, v)]
    ensures Distinct(Keys(Assign(sel, k, v)))
    decreases |sel|
  {
    if sel != [] {
      var tail := sel[1..];
      var r := Assign(sel, k, v);
      assert Keys(tail) == Keys(sel)[1..];
      assert Distinct(Keys(tail));
      assert forall i | 0 < i < |sel| :: Keys(sel)[0] != Keys(sel)[i];
      if sel[0].0 != k {
        AssignSpec(tail, k, v);
        assert r == [sel[0]] + Assign(tail, k, v);
        assert Keys(r) == [sel[0].0] + Keys(Assign(tail, k, v));
        if k in Keys(tail) {
          assert Keys(r) == Keys(sel);
        } else {
          assert Keys(r) == Keys(sel) + [k];
        }
      } else {
        forall i | 0 < i < |sel| ensures sel[i].0 != k {
          assert Keys(sel)[i] == sel[i].0;
        }
        assert Keys(r) == Keys(sel);
      }
    }
  }

  /**
    A checkbox turned away from its state and back restores the selection exactly: the toggled
    entry gets its old flag back, in its old place.
  */
  lemma ToggleRestores(sel: Entries, k: string, b: bool)
    requires Distinct(Keys(sel)) && (k, b) in sel
    ensures Assign(Assign(sel, k, !b), k, b) == sel
  {
    var i :| 0 <= i < |sel| && sel[i] == (k, b);
    AssignAt(sel, i, k, !b);
    var once := sel[i := (k, !b)];
    assert Keys(once) == Keys(sel);
    AssignAt(once, i, k, b);
    assert once[i := (k, b)] == sel;
  }

  /** Assigning a present key overwrites its entry where it stands. */
  lemma {:induction false} AssignAt(sel: Entries, i: nat, k: string, v: bool)
    requires Distinct(Keys(sel)) && i < |sel| && sel[i].0 == k
    ensures Assign(sel, k, v) == sel[i := (k, v)]
    decreases i
  {
    if i > 0 {
      var tail := sel[1..];
      assert Keys(sel)[0] != Keys(sel)[i];
      assert Keys(tail) == Keys(sel)[1..];
      AssignAt(tail, i - 1, k, v);
      assert sel[i := (k, v)] == [sel[0]] + tail[i - 1 := (k, v)];
    }
  }

  /** The loop of loadLocations: every key of the document that is not hidden is set to true, in order. */
  function Fill(sel: Entries, names: seq<string>): Entries
    decreases |names|
  {
    if names == [] then sel
    else
      var before := Fill(sel, names[..|names| - 1]);
      var n := names[|names| - 1];
      if n in HiddenNames then before else Assign(before, n, true)
  }

  /** The document's keys without the hidden ones, in document order, each active. */
  function Visible(names: seq<string>): Entries
    decreases |names|
  {
    if names == [] then []
    else (if names[0] in HiddenNames then [] else [(names[0], true)]) + Visible(names[1..])
  }

  /** An entry of Visible is an active, not hidden key of the document, and each such key has one. */
  lemma {:induction false} VisibleMembers(names: seq<string>, k: string, b: bool)
    ensures (k, b) in Visible(names) <==> b && k in names && k !in HiddenNames
    decreases |names|
  {
    if names != [] {
      VisibleMembers(names[1..], k, b);
      assert names == [names[0]] + names[1..];
    }
  }

  lemma {:induction false} VisibleSnoc(names: seq<string>, n: string)
    ensures Visible(names + [n]) == Visible(names) + (if n in HiddenNames then [] else [(n, true)])
    decreases |names|
  {
    if names == [] {
      assert [n][1..] == [];
    } else {
      assert (names + [n])[1..] == names[1..] + [n];
      VisibleSnoc(names[1..], n);
    }
  }

  /**
    Import fill: into an empty selection, loading a document with distinct keys gives exactly its
    visible keys, in document order, all active.
  */
  lemma {:induction false} FillFresh(names: seq<string>)
    requires Distinct(names)
    ensures Fill([], names) == Visible(names)
    decreases |names|
  {
    if names != [] {
      var init, n := names[..|names| - 1], names[|names| - 1];
      assert names == init + [n];
      assert Distinct(init);
      FillFresh(init);
      VisibleSnoc(init, n);
      if n !in HiddenNames {
        var before := Fill([], init);
        assert n !in Keys(before) by {
          if n in Keys(before) {
            var i :| 0 <= i < |before| && Keys(before)[i] == n;
            assert before[i] in Visible(init);
            VisibleMembers(init, n, before[i].1);
            assert false;
          }
        }
        VisibleKeysDistinct(init);
        AssignSpec(before, n, true);
      }
    }
  }

  lemma {:induction false} VisibleKeysDistinct(names: seq<string>)
    requires Distinct(names)
    ensures Distinct(Keys(Visible(names)))
    decreases |names|
  {
    if names != [] {
      var tail := names[1..];
      assert Distinct(tail);
      VisibleKeysDistinct(tail);
      var head := if names[0] in HiddenNames then [] else [(names[0], true)];
      assert Visible(names) == head + Visible(tail);
      assert Keys(Visible(names)) == Keys(head) + Keys(Visible(tail));
      forall e | e in Visible(tail) ensures e.0 != names[0] {
        VisibleMembers(tail, e.0, e.1);
      }
    }
  }

  /**
    Loading into a selection that already has entries (a second import) keeps every earlier key
    in its place, also the keys the new document does not have, and leaves keys distinct. Every
    visible key of the new document ends up active, and an earlier entry whose key the new
    document lacks keeps its flag.
  */
  lemma {:induction false} FillKeepsEarlier(sel: Entries, names: seq<string>)
    requires Distinct(Keys(sel))
    ensures Distinct(Keys(Fill(sel, names)))
    ensures |sel| <= |Fill(sel, names)| && Keys(Fill(sel, names))[..|sel|] == Keys(sel)
    ensures forall k | k in names && k !in HiddenNames :: (k, true) in Fill(sel, names)
    ensures forall e | e in sel && e.0 !in names :: e in Fill(sel, names)
    decreases |names|
  {
    if names != [] {
      var init, n := names[..|names| - 1], names[|names| - 1];
      assert names == init + [n];
      FillKeepsEarlier(sel, init);
      var before := Fill(sel, init);
      if n !in HiddenNames {
        AssignSpec(before, n, true);
        AssignKeeps(before, n, true);
        if n in Keys(before) {
          assert Keys(Assign(before, n, true)) == Keys(before);
        } else {
          assert Keys(Assign(before, n, true)) == Keys(before) + [n];
        }
      }
    }
  }

  /** Hidden names are never added: one that the selection lacks is still missing after an import. */
  lemma {:induction false} FillNoHidden(sel: Entries, names: seq<string>, h: string)
    requires Distinct(Keys(sel)) && h in HiddenNames && h !in Keys(sel)
    ensures h !in Keys(Fill(sel, names))
    decreases |names|
  {
    if names != [] {
      var init, n := names[..|names| - 1], names[|names| - 1];
      FillNoHidden(sel, init, h);
      var before := Fill(sel, init);
      if n !in HiddenNames {
        FillKeepsEarlier(sel, init);
        AssignKeeps(before, n, true);
        var r := Assign(before, n, true);
        forall e | e in before ensures e.0 != h {
          var j :| 0 <= j < |before| && before[j] == e;
          assert Keys(before)[j] == e.0;
        }
        forall i | 0 <= i < |r| ensures Keys(r)[i] != h {
          assert Keys(r)[i] == r[i].0 && r[i] in r;
        }
      }
    }
  }

  /**
    Membership after `obj[k] = v`: k's only entry is (k, v), and the entries of every other key
    are the same before and after.
  */
  lemma AssignKeeps(sel: Entries, k: string, v: bool)
    requires Distinct(Keys(sel))
    ensures (k, v) in Assign(sel, k, v)
    ensures forall e | e in Assign(sel, k, v) && e.0 == k :: e == (k, v)
    ensures forall e: (string, bool) | e.0 != k :: e in Assign(sel, k, v) <==> e in sel
  {
    AssignSpec(sel, k, v);
    var r := Assign(sel, k, v);
    if k in Keys(sel) {
      var i :| 0 <= i < |sel| && Keys(sel)[i] == k;
      assert r[i] == (k, v);
      forall e: (string, bool) | e.0 != k ensures e in r <==> e in sel {
        if e in sel {
          var j :| 0 <= j < |sel| && sel[j] == e;
          assert r[j] == e;
        }
        if e in r {
          var j :| 0 <= j < |r| && r[j] == e;
          assert sel[j] == e;
        }
      }
      forall e | e in r && e.0 == k ensures e == (k, v) {
        var j :| 0 <= j < |r| && r[j] == e;
        assert Keys(sel)[j] == k;
      }
    } else {
      assert r == sel + [(k, v)];
      forall e | e in sel ensures e.0 != k {
        var j :| 0 <= j < |sel| && sel[j] == e;
        assert Keys(sel)[j] == e.0;
      }
    }
  }

  /** The categories whose flag is `true`, in key order (`Object.keys(...).filter(...)`). */
  function ActiveNames(sel: Entries): seq<string>
    decreases |sel|
  {
    if sel == [] then []
    else (if sel[0].1 then [sel[0].0] else []) + ActiveNames(sel[1..])
  }

  /** ActiveNames holds exactly the categories whose flag is true. */
  lemma {:induction false} ActiveNamesMembers(sel: Entries, n: string)
    ensures n in ActiveNames(sel) <==> (n, true) in sel
    decreases |sel|
  {
    if sel != [] {
      ActiveNamesMembers(sel[1..], n);
      assert sel == [sel[0]] + sel[1..];
    }
  }

  /**
    After a checkbox change, the category that changed is active exactly when the box is checked,
    and every other category is active exactly when it was before.
  */
  lemma AssignActive(sel: Entries, k: string, b: bool, n: string)
    requires Distinct(Keys(sel))
    ensures k in ActiveNames(Assign(sel, k, b)) <==> b
    ensures n != k ==> (n in ActiveNames(Assign(sel, k, b)) <==> n in ActiveNames(sel))
  {
    var r := Assign(sel, k, b);
    AssignKeeps(sel, k, b);
    ActiveNamesMembers(r, k);
    ActiveNamesMembers(r, n);
    ActiveNamesMembers(sel, n);
  }

}
