/** The drive bookkeeping of the image writer's window, as values.

    A poll of the mounted volumes is a sequence of `Volume` records; the drive
    selection box is a sequence of `Item`s (visible text, data). The functions
    here say what the box and the set of known drives hold after populating
    and after one rescan; the class in module ImageWriter is proved against them. */
module Drives {

  /** One mounted volume as the operating system reports it. */
  datatype Volume = Volume(rootPath: string, displayName: string, isValid: bool, isReady: bool)

  /** One entry of the drive selection box: the text shown and the data behind it. */
  datatype Item = Item(text: string, data: string)

  /** The boot volume's root path, which is never offered. */
  const RootPath: string := "/"

  /** The entry shown when there is no drive to offer. */
  const Placeholder: Item := Item("No drives available", "")

  const ConnectedPrefix: string := "Drive connected: "
  const DisconnectedPrefix: string := "Drive disconnected: "

  /** A volume is offered when it is valid, ready, and not the root volume. */
  predicate Qualifies(v: Volume) {
    v.isValid && v.isReady && v.rootPath != RootPath
  }

  /** "name (path)": the name, then the path in parentheses, so both can be
      read back from the text. */
  function Description(v: Volume): (t: string)
    ensures |t| == |v.displayName| + |v.rootPath| + 3
    ensures t[..|v.displayName|] == v.displayName
    ensures t[|v.displayName|..|v.displayName| + 2] == " ("
    ensures t[|v.displayName| + 2..|t| - 1] == v.rootPath
    ensures t[|t| - 1] == ')'
  {
    v.displayName + " (" + v.rootPath + ")"
  }

  /** The entry offering a volume: its description, with the root path as
      data. It can never be mistaken for the placeholder, whose text does not
      end in ')'. */
  function EntryFor(v: Volume): (e: Item)
    ensures e.data == v.rootPath
    ensures e != Placeholder
  {
    var t := Description(v);
    assert Placeholder.text[|Placeholder.text| - 1] == 'e';
    Item(t, v.rootPath)
  }

  /** Some entry other than the placeholder carries `d` as its data. */
  ghost predicate Offers(items: seq<Item>, d: string) {
    exists x :: x in items && x.data == d && x != Placeholder
  }

  /** `order` lists every element of `s` exactly once. */
  ghost predicate Enumerates(order: seq<string>, s: set<string>) {
    && (forall i, j :: 0 <= i < j < |order| ==> order[i] != order[j])
    && (forall i :: 0 <= i < |order| ==> order[i] in s)
    && (forall d :: d in s ==> d in order)
  }

  lemma EnumeratesSnoc(order: seq<string>, s: set<string>, d: string)
    requires Enumerates(order, s) && d !in s
    ensures Enumerates(order + [d], s + {d})
  {
    var o := order + [d];
    forall e | e in s + {d} ensures e in o {
      if e in s {
        var i :| 0 <= i < |order| && order[i] == e;
        assert o[i] == e;
      } else {
        assert o[|order|] == e;
      }
    }
  }

  // ---------------------------------------------------------------------------
  // What a poll contributes

  /** The root paths of the qualifying volumes of a poll. */
  function QualifyingPaths(vols: seq<Volume>): (ps: set<string>)
    ensures RootPath !in ps
  {
    if vols == [] then {}
    else
      var v := vols[|vols| - 1];
      QualifyingPaths(vols[..|vols| - 1]) + (if Qualifies(v) then {v.rootPath} else {})
  }

  /** The set of known drives is exactly the set of root paths of the
      qualifying volumes of the poll, whatever their position. */
  lemma {:induction false} QualifyingPathsExactly(vols: seq<Volume>, p: string)
    ensures p in QualifyingPaths(vols) <==>
            exists i :: 0 <= i < |vols| && Qualifies(vols[i]) && vols[i].rootPath == p
  {
    if vols != [] {
      var n := |vols| - 1;
      QualifyingPathsExactly(vols[..n], p);
      if p in QualifyingPaths(vols[..n]) {
        var i :| 0 <= i < n && Qualifies(vols[..n][i]) && vols[..n][i].rootPath == p;
        assert vols[i] == vols[..n][i];
      }
      if exists i :: 0 <= i < |vols| && Qualifies(vols[i]) && vols[i].rootPath == p {
        var i :| 0 <= i < |vols| && Qualifies(vols[i]) && vols[i].rootPath == p;
        if i < n {
          assert vols[..n][i] == vols[i];
        }
      }
    }
  }

  /** The entries a poll adds, in poll order: one "name (path)" entry for each
      qualifying volume whose path is not already known (a path that occurs
      twice in the poll is added twice, as `scanForDrives` does). */
  function Arrivals(vols: seq<Volume>, known: set<string>): (a: seq<Item>)
    ensures |a| <= |vols|
    ensures forall i :: 0 <= i < |a| ==>
              a[i].data in QualifyingPaths(vols) && a[i].data !in known && a[i] != Placeholder
  {
    if vols == [] then []
    else
      var v := vols[|vols| - 1];
      var prior := Arrivals(vols[..|vols| - 1], known);
      if Qualifies(v) && v.rootPath !in known then
        prior + [EntryFor(v)]
      else prior
  }

  /** Taking one more volume of the poll into account. */
  lemma PollStep(vols: seq<Volume>, i: nat, known: set<string>)
    requires i < |vols|
    ensures QualifyingPaths(vols[..i + 1]) ==
            QualifyingPaths(vols[..i]) + (if Qualifies(vols[i]) then {vols[i].rootPath} else {})
    ensures Arrivals(vols[..i + 1], known) ==
            Arrivals(vols[..i], known) +
            (if Qualifies(vols[i]) && vols[i].rootPath !in known then [EntryFor(vols[i])] else [])
  {
    assert vols[..i + 1][..i] == vols[..i];
  }

  /** Every qualifying path not yet known gets an entry, and only those do. */
  lemma {:induction false} ArrivalsCover(vols: seq<Volume>, known: set<string>)
    ensures (set x | x in Arrivals(vols, known) :: x.data) == QualifyingPaths(vols) - known
  {
    if vols != [] {
      var n := |vols| - 1;
      var v := vols[n];
      var prior := Arrivals(vols[..n], known);
      ArrivalsCover(vols[..n], known);
      if Qualifies(v) && v.rootPath !in known {
        assert Arrivals(vols, known) == prior + [EntryFor(v)];
        assert (set x | x in prior + [EntryFor(v)] :: x.data) ==
               (set x | x in prior :: x.data) + {v.rootPath};
      } else {
        assert Arrivals(vols, known) == prior;
      }
    }
  }

  /** A qualifying path not yet known is offered by one of the added entries. */
  lemma {:induction false} ArrivalsOffer(vols: seq<Volume>, known: set<string>, d: string)
    requires d in QualifyingPaths(vols) && d !in known
    ensures Offers(Arrivals(vols, known), d)
  {
    var n := |vols| - 1;
    var v := vols[n];
    if d in QualifyingPaths(vols[..n]) {
      ArrivalsOffer(vols[..n], known, d);
      var x :| x in Arrivals(vols[..n], known) && x.data == d && x != Placeholder;
      assert x in Arrivals(vols, known);
    } else {
      assert EntryFor(v) in Arrivals(vols, known);
    }
  }

  /** A poll whose qualifying paths are all known adds nothing. */
  lemma {:induction false} ArrivalsOfKnown(vols: seq<Volume>, known: set<string>)
    requires QualifyingPaths(vols) <= known
    ensures Arrivals(vols, known) == []
  {
    if vols != [] {
      ArrivalsOfKnown(vols[..|vols| - 1], known);
    }
  }

  /** The log lines for the entries a poll adds. */
  function Announce(arrivals: seq<Item>): (lines: seq<string>)
    ensures |lines| == |arrivals|
    ensures forall i :: 0 <= i < |arrivals| ==> lines[i] == ConnectedPrefix + arrivals[i].text
  {
    if arrivals == [] then []
    else Announce(arrivals[..|arrivals| - 1]) + [ConnectedPrefix + arrivals[|arrivals| - 1].text]
  }

  /** Appending one more arrival to a box and a log that already hold the
      earlier ones. */
  lemma AnnounceSnoc(items: seq<Item>, log: seq<string>, arrivals: seq<Item>, x: Item)
    ensures (items + arrivals) + [x] == items + (arrivals + [x])
    ensures (log + Announce(arrivals)) + [ConnectedPrefix + x.text] == log + Announce(arrivals + [x])
  {
    assert (arrivals + [x])[..|arrivals|] == arrivals;
  }

  /** The selection box after populating from a poll. */
  function PopulatedList(vols: seq<Volume>): (r: seq<Item>)
    ensures r != []
    ensures forall x :: x in r ==> x == Placeholder || x.data in QualifyingPaths(vols)
  {
    var a := Arrivals(vols, {});
    if a == [] then [Placeholder] else a
  }

  /** After populating, the placeholder is there exactly when no drive
      qualified, and then it is alone; otherwise the entries' paths are exactly
      the qualifying paths, and "/" is never among them. */
  lemma PopulatedListShape(vols: seq<Volume>)
    ensures (PopulatedList(vols) == [Placeholder]) <==> QualifyingPaths(vols) == {}
    ensures (Placeholder in PopulatedList(vols)) <==> QualifyingPaths(vols) == {}
    ensures QualifyingPaths(vols) != {} ==>
              (set x | x in PopulatedList(vols) :: x.data) == QualifyingPaths(vols)
    ensures forall x :: x in PopulatedList(vols) ==> x.data != RootPath
  {
    var a := Arrivals(vols, {});
    ArrivalsCover(vols, {});
    if a == [] {
      assert (set x | x in a :: x.data) == {};
    } else {
      assert a[0].data in (set x | x in a :: x.data);
    }
  }

  // ---------------------------------------------------------------------------
  // Removing entries

  /** The index of the first entry whose data is `d`, or -1. */
  function FirstIndex(items: seq<Item>, d: string): (k: int)
    ensures -1 <= k < |items|
    ensures 0 <= k ==> items[k].data == d && forall j :: 0 <= j < k ==> items[j].data != d
    ensures k < 0 ==> forall j :: 0 <= j < |items| ==> items[j].data != d
  {
    if items == [] then -1
    else if items[0].data == d then 0
    else
      var k := FirstIndex(items[1..], d);
      if k < 0 then -1 else k + 1
  }

  /** The box after one search-and-remove for `d`. */
  function RemoveFirst(items: seq<Item>, d: string): seq<Item> {
    var k := FirstIndex(items, d);
    if k < 0 then items else items[..k] + items[k + 1..]
  }

  /** One search-and-remove changes nothing when no entry carries `d`;
      otherwise it removes exactly one entry, adds none, and keeps every
      entry with other data. */
  lemma RemoveFirstEffect(items: seq<Item>, d: string)
    ensures (forall x :: x in items ==> x.data != d) ==> RemoveFirst(items, d) == items
    ensures (exists x :: x in items && x.data == d) ==> |RemoveFirst(items, d)| == |items| - 1
    ensures forall x :: x in RemoveFirst(items, d) ==> x in items
    ensures forall x :: x in items && x.data != d ==> x in RemoveFirst(items, d)
  {
    var k := FirstIndex(items, d);
    if k >= 0 {
      var r := items[..k] + items[k + 1..];
      forall x | x in r ensures x in items {
        if x in items[..k] {
          var j :| 0 <= j < k && items[..k][j] == x;
          assert items[j] == x;
        } else {
          var j :| 0 <= j < |items| - k - 1 && items[k + 1..][j] == x;
          assert items[k + 1 + j] == x;
        }
      }
      forall x | x in items && x.data != d ensures x in r {
        var j :| 0 <= j < |items| && items[j] == x;
        if j < k {
          assert items[..k][j] == x;
        } else {
          assert items[k + 1..][j - k - 1] == x;
        }
      }
    }
  }

  /** The log line one search-and-remove for `d` writes (none when no entry matches). */
  function LineFor(items: seq<Item>, d: string): (l: seq<string>)
    ensures |l| <= 1
    ensures l == [] <==> forall x :: x in items ==> x.data != d
    ensures l != [] ==> exists x :: x in items && x.data == d && l[0] == DisconnectedPrefix + x.text
  {
    var k := FirstIndex(items, d);
    if k < 0 then [] else [DisconnectedPrefix + items[k].text]
  }

  /** Reference definition, independent of any order: for every path in `gone`,
      the first entry carrying it is dropped, and nothing else. */
  function DropFirsts(items: seq<Item>, gone: set<string>): (r: seq<Item>)
    ensures |r| <= |items|
  {
    if items == [] then []
    else if items[0].data in gone then DropFirsts(items[1..], gone - {items[0].data})
    else [items[0]] + DropFirsts(items[1..], gone)
  }

  /** The removal pass drops at most one entry per vanished path. */
  lemma {:induction false} DropFirstsLength(items: seq<Item>, gone: set<string>)
    ensures |items| - |gone| <= |DropFirsts(items, gone)|
  {
    if items != [] {
      if items[0].data in gone {
        DropFirstsLength(items[1..], gone - {items[0].data});
      } else {
        DropFirstsLength(items[1..], gone);
      }
    }
  }

  /** The disconnect log lines for paths removed in the given order, each
      naming the first entry that carried the path before any removal. */
  function Departures(items: seq<Item>, order: seq<string>): (lines: seq<string>)
    ensures |lines| <= |order|
    ensures forall i :: 0 <= i < |lines| ==>
              exists x :: x in items && x.data in order && lines[i] == DisconnectedPrefix + x.text
  {
    if order == [] then []
    else
      var n := |order| - 1;
      var prev := Departures(items, order[..n]);
      var last := LineFor(items, order[n]);
      var r := prev + last;
      assert forall i :: 0 <= i < |r| ==>
               exists x :: x in items && x.data in order && r[i] == DisconnectedPrefix + x.text
      by {
        forall i | 0 <= i < |r|
          ensures exists x :: x in items && x.data in order && r[i] == DisconnectedPrefix + x.text
        {
          if i < |prev| {
            var x :| x in items && x.data in order[..n] && prev[i] == DisconnectedPrefix + x.text;
            var j :| 0 <= j < n && order[..n][j] == x.data;
            assert order[j] == x.data;
            assert r[i] == prev[i];
          } else {
            var x :| x in items && x.data == order[n] && last[0] == DisconnectedPrefix + x.text;
            assert r[i] == last[0];
          }
        }
      }
      r
  }

  /** One more removal appends its line to a log that already holds the
      earlier ones. */
  lemma DeparturesSnoc(log: seq<string>, items: seq<Item>, order: seq<string>, d: string)
    ensures (log + Departures(items, order)) + LineFor(items, d) == log + Departures(items, order + [d])
  {
    assert (order + [d])[..|order|] == order;
  }

  /** One step of the removal pass: removing the first entry for a further
      vanished path `d` from the box that already lacks the earlier ones
      extends the reference result, the visiting order and the log alike. */
  lemma VanishStep(items: seq<Item>, log: seq<string>, order: seq<string>,
                   done: set<string>, d: string)
    requires Enumerates(order, done) && d !in done
    ensures RemoveFirst(DropFirsts(items, done), d) == DropFirsts(items, done + {d})
    ensures (log + Departures(items, order)) + LineFor(DropFirsts(items, done), d)
            == log + Departures(items, order + [d])
    ensures Enumerates(order + [d], done + {d})
  {
    RemoveFirstDropFirsts(items, done, d);
    LineForAfterDrops(items, done, d);
    DeparturesSnoc(log, items, order, d);
    EnumeratesSnoc(order, done, d);
  }

  /** A search that matches the head entry removes just that entry. */
  lemma RemoveFirstHead(x: Item, s: seq<Item>, d: string)
    requires x.data == d
    ensures RemoveFirst([x] + s, d) == s
  {
    var xs := [x] + s;
    assert xs[0] == x && xs[1..] == s;
  }

  /** A search that passes over the head entry removes from the rest. */
  lemma RemoveFirstSkip(x: Item, s: seq<Item>, d: string)
    requires x.data != d
    ensures RemoveFirst([x] + s, d) == [x] + RemoveFirst(s, d)
  {
    var xs := [x] + s;
    assert xs[0] == x && xs[1..] == s;
    var k := FirstIndex(s, d);
    assert FirstIndex(xs, d) == if k < 0 then -1 else k + 1;
    if k >= 0 {
      assert xs[..k + 1] == [x] + s[..k];
      assert xs[k + 2..] == s[k + 1..];
      assert RemoveFirst(xs, d) == ([x] + s[..k]) + s[k + 1..];
      assert ([x] + s[..k]) + s[k + 1..] == [x] + (s[..k] + s[k + 1..]);
    }
  }

  /** A search that passes over the head entry logs what the rest logs. */
  lemma LineForSkip(x: Item, s: seq<Item>, d: string)
    requires x.data != d
    ensures LineFor([x] + s, d) == LineFor(s, d)
  {
    var xs := [x] + s;
    assert xs[0] == x && xs[1..] == s;
    var k := FirstIndex(s, d);
    assert FirstIndex(xs, d) == if k < 0 then -1 else k + 1;
    if k >= 0 {
      assert xs[k + 1] == s[k];
    }
  }

  /** Removing the first entry for a further path `d` extends the reference
      definition by `d`: the order in which paths are removed does not matter. */
  lemma {:induction false} RemoveFirstDropFirsts(items: seq<Item>, gone: set<string>, d: string)
    requires d !in gone
    ensures RemoveFirst(DropFirsts(items, gone), d) == DropFirsts(items, gone + {d})
  {
    if items != [] {
      var x, rest := items[0], items[1..];
      assert items == [x] + rest;
      if x.data == d {
        assert gone + {d} - {d} == gone;
        RemoveFirstHead(x, DropFirsts(rest, gone), d);
      } else if x.data in gone {
        RemoveFirstDropFirsts(rest, gone - {x.data}, d);
        assert gone - {x.data} + {d} == gone + {d} - {x.data};
      } else {
        RemoveFirstDropFirsts(rest, gone, d);
        RemoveFirstSkip(x, DropFirsts(rest, gone), d);
      }
    }
  }

  /** Earlier removals of other paths do not change which entry is logged for `d`. */
  lemma {:induction false} LineForAfterDrops(items: seq<Item>, gone: set<string>, d: string)
    requires d !in gone
    ensures LineFor(DropFirsts(items, gone), d) == LineFor(items, d)
  {
    if items != [] {
      var x, rest := items[0], items[1..];
      assert items == [x] + rest;
      if x.data == d {
        assert DropFirsts(items, gone) == [x] + DropFirsts(rest, gone);
      } else if x.data in gone {
        LineForAfterDrops(rest, gone - {x.data}, d);
        LineForSkip(x, rest, d);
      } else {
        LineForAfterDrops(rest, gone, d);
        LineForSkip(x, rest, d);
        LineForSkip(x, DropFirsts(rest, gone), d);
      }
    }
  }

  lemma {:induction false} DropNothing(items: seq<Item>)
    ensures DropFirsts(items, {}) == items
  {
    if items != [] {
      DropNothing(items[1..]);
    }
  }

  /** Dropping only ever removes entries. */
  lemma {:induction false} DropFirstsSubset(items: seq<Item>, gone: set<string>, x: Item)
    requires x in DropFirsts(items, gone)
    ensures x in items
  {
    if items != [] {
      if items[0].data in gone {
        DropFirstsSubset(items[1..], gone - {items[0].data}, x);
      } else if x != items[0] {
        DropFirstsSubset(items[1..], gone, x);
      }
    }
  }

  /** An entry whose path is not being removed survives. */
  lemma {:induction false} DropFirstsKeeps(items: seq<Item>, gone: set<string>, x: Item)
    requires x in items && x.data !in gone
    ensures x in DropFirsts(items, gone)
  {
    if items[0] != x {
      if items[0].data in gone {
        DropFirstsKeeps(items[1..], gone - {items[0].data}, x);
      } else {
        DropFirstsKeeps(items[1..], gone, x);
      }
    }
  }

  /** Entries appended after the ones searched are untouched when none of them
      carries a path being removed. */
  lemma {:induction false} DropFirstsAppend(a: seq<Item>, b: seq<Item>, gone: set<string>)
    requires forall x :: x in b ==> x.data !in gone
    ensures DropFirsts(a + b, gone) == DropFirsts(a, gone) + b
  {
    if a == [] {
      DropFirstsNoMatch(b, gone);
      assert a + b == b;
    } else {
      assert (a + b)[0] == a[0] && (a + b)[1..] == a[1..] + b;
      if a[0].data in gone {
        DropFirstsAppend(a[1..], b, gone - {a[0].data});
      } else {
        DropFirstsAppend(a[1..], b, gone);
      }
    }
  }

  lemma {:induction false} DropFirstsNoMatch(b: seq<Item>, gone: set<string>)
    requires forall x :: x in b ==> x.data !in gone
    ensures DropFirsts(b, gone) == b
  {
    if b != [] {
      DropFirstsNoMatch(b[1..], gone);
    }
  }

  lemma {:induction false} FirstIndexAppend(a: seq<Item>, b: seq<Item>, d: string)
    requires forall x :: x in b ==> x.data != d
    ensures LineFor(a + b, d) == LineFor(a, d)
  {
    var k := FirstIndex(a + b, d);
    var k' := FirstIndex(a, d);
    if k' >= 0 {
      assert (a + b)[k'] == a[k'];
      assert k == k';
    }
  }

  /** Appended entries without any of the removed paths do not change the
      disconnect log. */
  lemma {:induction false} DeparturesAppend(a: seq<Item>, b: seq<Item>, order: seq<string>)
    requires forall x :: x in b ==> x.data !in order
    ensures Departures(a + b, order) == Departures(a, order)
  {
    if order != [] {
      var n := |order| - 1;
      DeparturesAppend(a, b, order[..n]);
      FirstIndexAppend(a, b, order[n]);
    }
  }

  /** How many entries carry `p`. */
  function Count(items: seq<Item>, p: string): nat {
    if items == [] then 0
    else (if items[0].data == p then 1 else 0) + Count(items[1..], p)
  }

  /** Dropping removes at most one entry per removed path — exactly one when
      some entry carries it — and no entry of any other path. */
  lemma {:induction false} CountAfterDrops(items: seq<Item>, gone: set<string>, p: string)
    ensures Count(DropFirsts(items, gone), p) ==
            if p in gone && Count(items, p) > 0 then Count(items, p) - 1 else Count(items, p)
  {
    if items != [] {
      var x, rest := items[0], items[1..];
      if x.data in gone {
        CountAfterDrops(rest, gone - {x.data}, p);
      } else {
        CountAfterDrops(rest, gone, p);
        assert ([x] + DropFirsts(rest, gone))[1..] == DropFirsts(rest, gone);
      }
    }
  }

  /** The entries not carrying a path in `paths`, in their order. */
  function Without(items: seq<Item>, paths: set<string>): seq<Item> {
    if items == [] then []
    else (if items[0].data in paths then [] else [items[0]]) + Without(items[1..], paths)
  }

  /** Dropping leaves the entries of every other path in their relative order:
      apart from entries of removed paths, the box is unchanged. */
  lemma {:induction false} DropFirstsKeepsOrder(items: seq<Item>, gone: set<string>, paths: set<string>)
    requires gone <= paths
    ensures Without(DropFirsts(items, gone), paths) == Without(items, paths)
  {
    if items != [] {
      var x, rest := items[0], items[1..];
      if x.data in gone {
        DropFirstsKeepsOrder(rest, gone - {x.data}, paths);
      } else {
        DropFirstsKeepsOrder(rest, gone, paths);
        assert ([x] + DropFirsts(rest, gone))[1..] == DropFirsts(rest, gone);
      }
    }
  }

  // ---------------------------------------------------------------------------
  // One rescan

  /** The selection box after a rescan that found `vols`, given the box and
      the known drives before it. */
  function ScanList(items: seq<Item>, known: set<string>, vols: seq<Volume>): (r: seq<Item>)
    ensures QualifyingPaths(vols) != {} ==> |items| - |known - QualifyingPaths(vols)| <= |r|
    ensures QualifyingPaths(vols) != {} ==> |r| <= |items| + |vols|
  {
    var now := QualifyingPaths(vols);
    if now == {} then [Placeholder]
    else
      DropFirstsLength(items, known - now);
      DropFirsts(items, known - now) + Arrivals(vols, known)
  }

  /** A rescan never offers "/": removals only remove, and additions qualify. */
  lemma ScanListNoRoot(items: seq<Item>, known: set<string>, vols: seq<Volume>)
    requires forall x :: x in items ==> x.data != RootPath
    ensures forall x :: x in ScanList(items, known, vols) ==> x.data != RootPath
  {
    var now := QualifyingPaths(vols);
    if now != {} {
      var dropped := DropFirsts(items, known - now);
      forall x: Item | x in dropped ensures x.data != RootPath {
        DropFirstsSubset(items, known - now, x);
      }
    }
  }

  /** After a rescan every drive of the new poll is offered by an entry,
      provided every previously known drive was. */
  lemma ScanListOffers(items: seq<Item>, known: set<string>, vols: seq<Volume>, d: string)
    requires forall p :: p in known ==> Offers(items, p)
    requires d in QualifyingPaths(vols)
    ensures Offers(ScanList(items, known, vols), d)
  {
    var now := QualifyingPaths(vols);
    var dropped := DropFirsts(items, known - now);
    var a := Arrivals(vols, known);
    if d in known {
      var x :| x in items && x.data == d && x != Placeholder;
      DropFirstsKeeps(items, known - now, x);
      assert x in dropped + a;
    } else {
      ArrivalsOffer(vols, known, d);
      var x :| x in a && x.data == d && x != Placeholder;
      assert x in dropped + a;
    }
  }

  /** Rescanning with a poll whose drives are all known changes nothing. */
  lemma Rescan(list: seq<Item>, vols: seq<Volume>)
    requires QualifyingPaths(vols) == {} ==> list == [Placeholder]
    ensures ScanList(list, QualifyingPaths(vols), vols) == list
    ensures Arrivals(vols, QualifyingPaths(vols)) == []
  {
    var now := QualifyingPaths(vols);
    assert now - now == {};
    DropNothing(list);
    ArrivalsOfKnown(vols, now);
  }

  /** Two rescans with the same poll: the second adds no entry, removes none
      and logs nothing. */
  lemma ScanIdempotent(items: seq<Item>, known: set<string>, vols: seq<Volume>)
    ensures ScanList(ScanList(items, known, vols), QualifyingPaths(vols), vols) ==
            ScanList(items, known, vols)
    ensures Arrivals(vols, QualifyingPaths(vols)) == []
  {
    Rescan(ScanList(items, known, vols), vols);
  }

  /** The window's construction populates and then rescans at once: with an
      unchanged poll the rescan leaves the populated box as it is. */
  lemma PopulateThenScan(vols: seq<Volume>)
    ensures ScanList(PopulatedList(vols), QualifyingPaths(vols), vols) == PopulatedList(vols)
    ensures Arrivals(vols, QualifyingPaths(vols)) == []
  {
    PopulatedListShape(vols);
    Rescan(PopulatedList(vols), vols);
  }

  // ---------------------------------------------------------------------------
  // The placeholder after a rescan

  /** As written, a rescan that finds a first drive after an empty poll keeps
      the placeholder beside the new entry. */
  lemma ScanKeepsPlaceholder()
    ensures var usb := Volume("/Volumes/USB", "USB", true, true);
            QualifyingPaths([usb]) == {"/Volumes/USB"} &&
            ScanList([Placeholder], {}, [usb]) == [Placeholder, Item("USB (/Volumes/USB)", "/Volumes/USB")]
  {
    var usb := Volume("/Volumes/USB", "USB", true, true);
    assert [usb][..0] == [];
    assert QualifyingPaths([usb]) == {"/Volumes/USB"};
    assert Description(usb) == "USB (/Volumes/USB)";
    assert Arrivals([usb], {}) == [EntryFor(usb)];
    assert DropFirsts([Placeholder], {}) == [Placeholder];
    assert {} - {"/Volumes/USB"} == {};
  }

  /** The entries that are not the placeholder, in order. */
  function RemovePlaceholders(items: seq<Item>): (r: seq<Item>)
    ensures Placeholder !in r
    ensures forall x :: x in items && x != Placeholder ==> x in r
    ensures forall x :: x in r ==> x in items
  {
    if items == [] then []
    else (if items[0] == Placeholder then [] else [items[0]]) + RemovePlaceholders(items[1..])
  }

  /** The rescan with the placeholder dropped once a drive is present. */
  function CorrectedScanList(items: seq<Item>, known: set<string>, vols: seq<Volume>): (r: seq<Item>)
    ensures QualifyingPaths(vols) == {} ==> r == [Placeholder]
    ensures QualifyingPaths(vols) != {} ==> Placeholder !in r
    ensures forall x :: x in r ==> x in ScanList(items, known, vols)
  {
    var r := ScanList(items, known, vols);
    if QualifyingPaths(vols) == {} then r else RemovePlaceholders(r)
  }

  /** Corrected rescan: the placeholder is shown exactly when no drive is
      known, every known drive is still offered, and "/" is still never offered. */
  lemma CorrectedScanListShape(items: seq<Item>, known: set<string>, vols: seq<Volume>)
    requires forall x :: x in items ==> x.data != RootPath
    requires forall d :: d in known ==> Offers(items, d)
    ensures (Placeholder in CorrectedScanList(items, known, vols)) <==> QualifyingPaths(vols) == {}
    ensures forall x :: x in CorrectedScanList(items, known, vols) ==> x.data != RootPath
    ensures forall d :: d in QualifyingPaths(vols) ==> Offers(CorrectedScanList(items, known, vols), d)
  {
    ScanListNoRoot(items, known, vols);
    var r := ScanList(items, known, vols);
    forall d | d in QualifyingPaths(vols)
      ensures Offers(CorrectedScanList(items, known, vols), d)
    {
      ScanListOffers(items, known, vols, d);
      var x :| x in r && x.data == d && x != Placeholder;
      assert x in RemovePlaceholders(r);
    }
  }
}
