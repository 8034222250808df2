/** The image writer's window as a state machine: the set of known drives,
    the drive selection box and the output log, updated in place by the
    populate, rescan and start actions. */
module ImageWriter {
  import opened Drives
  import opened Command

  class DDImageWriter {
    /** Root paths of the drives seen by the last poll. */
    var currentDrives: set<string>
    /** The drive selection box, entry by entry. */
    var items: seq<Item>
    /** The output pane, one entry per appended paragraph. */
    var log: seq<string>

    /** "/" is never offered, and every known drive is offered by an entry. */
    ghost predicate Valid()
      reads this
    {
      && (forall x :: x in items ==> x.data != RootPath)
      && (forall d :: d in currentDrives ==> Offers(items, d))
    }

    /** Construction populates the box from one poll and rescans at once
        with the next. */
    constructor (initialPoll: seq<Volume>, firstScanPoll: seq<Volume>)
      ensures Valid()
      ensures currentDrives == QualifyingPaths(firstScanPoll)
      ensures items == ScanList(PopulatedList(initialPoll), QualifyingPaths(initialPoll), firstScanPoll)
      ensures initialPoll == firstScanPoll ==> items == PopulatedList(initialPoll) && log == []
      ensures exists order ::
                && Enumerates(order, QualifyingPaths(initialPoll) - QualifyingPaths(firstScanPoll))
                && log == Announce(Arrivals(firstScanPoll, QualifyingPaths(initialPoll)))
                          + Departures(PopulatedList(initialPoll), order)
    {
      currentDrives, items, log := {}, [], [];
      new;
      PopulateDrives(initialPoll);
      ghost var order := ScanForDrives(firstScanPoll);
      assert [] + Announce(Arrivals(firstScanPoll, QualifyingPaths(initialPoll)))
             == Announce(Arrivals(firstScanPoll, QualifyingPaths(initialPoll)));
      if initialPoll == firstScanPoll {
        PopulateThenScan(initialPoll);
      }
    }

    /** Rebuilds the box and the known drives from a poll. */
    method PopulateDrives(volumes: seq<Volume>)
      modifies this
      ensures Valid()
      ensures currentDrives == QualifyingPaths(volumes)
      ensures items == PopulatedList(volumes)
      ensures (Placeholder in items) <==> currentDrives == {}
      ensures log == old(log)
    {
      items := [];
      currentDrives := {};
      var i := 0;
      while i < |volumes|
        invariant 0 <= i <= |volumes|
        invariant currentDrives == QualifyingPaths(volumes[..i])
        invariant items == Arrivals(volumes[..i], {})
        invariant log == old(log)
      {
        var storage := volumes[i];
        PollStep(volumes, i, {});
        if Qualifies(storage) {
          var drivePath := storage.rootPath;
          items := items + [EntryFor(storage)];
          currentDrives := currentDrives + {drivePath};
        }
        i := i + 1;
      }
      assert volumes[..i] == volumes;
      if |items| == 0 {
        items := [Placeholder];
      }
      PopulatedListShape(volumes);
      forall d | d in currentDrives ensures Offers(items, d) {
        ArrivalsOffer(volumes, {}, d);
      }
    }

    /** Reconciles the box with a fresh poll. New drives are appended and
        logged; for each vanished drive, taken in an unspecified order
        (`order`), the first entry carrying it is removed and logged; the
        known drives become the poll's; an empty poll leaves only the
        placeholder. */
    method ScanForDrives(volumes: seq<Volume>) returns (ghost order: seq<string>)
      requires Valid()
      modifies this
      ensures Valid()
      ensures currentDrives == QualifyingPaths(volumes)
      ensures items == ScanList(old(items), old(currentDrives), volumes)
      ensures Enumerates(order, old(currentDrives) - QualifyingPaths(volumes))
      ensures old(currentDrives) <= QualifyingPaths(volumes) ==> order == []
      ensures log == old(log) + Announce(Arrivals(volumes, old(currentDrives)))
                              + Departures(old(items), order)
    {
      var newDrives := AddArrivals(volumes);
      ghost var arrivals := Arrivals(volumes, currentDrives);

      var removedDrives := currentDrives - newDrives;
      order := RemoveVanished(removedDrives);

      DropFirstsAppend(old(items), arrivals, removedDrives);
      DeparturesAppend(old(items), arrivals, order);
      currentDrives := newDrives;
      if currentDrives == {} {
        items := [Placeholder];
      }
      ScanListNoRoot(old(items), old(currentDrives), volumes);
      forall d | d in currentDrives ensures Offers(items, d) {
        ScanListOffers(old(items), old(currentDrives), volumes, d);
      }
    }

    /** The first pass of a rescan: collects the poll's qualifying paths and
        appends and logs an entry for each one not already known. */
    method AddArrivals(volumes: seq<Volume>) returns (newDrives: set<string>)
      modifies this`items, this`log
      ensures newDrives == QualifyingPaths(volumes)
      ensures items == old(items) + Arrivals(volumes, currentDrives)
      ensures log == old(log) + Announce(Arrivals(volumes, currentDrives))
    {
      newDrives := {};
      ghost var added: seq<Item> := [];
      var i := 0;
      while i < |volumes|
        invariant 0 <= i <= |volumes|
        invariant newDrives == QualifyingPaths(volumes[..i])
        invariant added == Arrivals(volumes[..i], currentDrives)
        invariant items == old(items) + added
        invariant log == old(log) + Announce(added)
      {
        var storage := volumes[i];
        PollStep(volumes, i, currentDrives);
        if Qualifies(storage) {
          var drivePath := storage.rootPath;
          newDrives := newDrives + {drivePath};
          if drivePath !in currentDrives {
            var entry := EntryFor(storage);
            AnnounceSnoc(old(items), old(log), added, entry);
            items := items + [entry];
            log := log + [ConnectedPrefix + entry.text];
            added := added + [entry];
          }
        }
        i := i + 1;
      }
      assert volumes[..i] == volumes;
    }

    /** For each path of `removedDrives`, in an unspecified order (`order`),
        removes the first entry carrying it and logs that entry's text. */
    method RemoveVanished(removedDrives: set<string>) returns (ghost order: seq<string>)
      modifies this`items, this`log
      ensures Enumerates(order, removedDrives)
      ensures removedDrives == {} ==> order == []
      ensures items == DropFirsts(old(items), removedDrives)
      ensures log == old(log) + Departures(old(items), order)
    {
      ghost var grown := items;
      var pending := removedDrives;
      order := [];
      DropNothing(grown);
      assert removedDrives - pending == {};
      while pending != {}
        invariant pending <= removedDrives
        invariant Enumerates(order, removedDrives - pending)
        invariant order == [] || removedDrives != {}
        invariant items == DropFirsts(grown, removedDrives - pending)
        invariant log == old(log) + Departures(grown, order)
        decreases pending
      {
        var drive :| drive in pending;
        ghost var done := removedDrives - pending;
        RemoveFirstEntry(drive);
        VanishStep(grown, old(log), order, done, drive);
        pending := pending - {drive};
        order := order + [drive];
        assert removedDrives - pending == done + {drive};
      }
      assert removedDrives - pending == removedDrives;
    }

    /** Removes the first entry whose data is `drive`, if any, and logs its text. */
    method RemoveFirstEntry(drive: string)
      modifies this`items, this`log
      ensures items == RemoveFirst(old(items), drive)
      ensures log == old(log) + LineFor(old(items), drive)
    {
      var i := 0;
      while i < |items|
        invariant 0 <= i <= |items|
        invariant items == old(items) && log == old(log)
        invariant forall k :: 0 <= k < i ==> items[k].data != drive
      {
        if items[i].data == drive {
          assert FirstIndex(items, drive) == i;
          var description := items[i].text;
          items := items[..i] + items[i + 1..];
          log := log + [DisconnectedPrefix + description];
          break;
        }
        i := i + 1;
      }
    }

    /** The rescan with the placeholder dropped as soon as a drive is present. */
    method ScanForDrivesCorrected(volumes: seq<Volume>) returns (ghost order: seq<string>)
      requires Valid()
      modifies this
      ensures Valid()
      ensures currentDrives == QualifyingPaths(volumes)
      ensures items == CorrectedScanList(old(items), old(currentDrives), volumes)
      ensures (Placeholder in items) <==> currentDrives == {}
      ensures Enumerates(order, old(currentDrives) - QualifyingPaths(volumes))
      ensures log == old(log) + Announce(Arrivals(volumes, old(currentDrives)))
                              + Departures(old(items), order)
    {
      order := ScanForDrives(volumes);
      if currentDrives != {} {
        items := RemovePlaceholders(items);
      }
      CorrectedScanListShape(old(items), old(currentDrives), volumes);
    }

    /** Start: checks the selected drive and the image file, and on success
        logs and returns the escaped dd command; on refusal nothing changes. */
    method StartDDProcess(selected: int, blockSize: string, imageFile: string)
      returns (command: Option<string>)
      modifies this`log
      ensures command == PrepareDD(CurrentData(items, selected), imageFile, blockSize)
      ensures command.None? ==> log == old(log)
      ensures command.Some? ==> log == old(log) + ["Executing: " + command.value]
    {
      var drive := CurrentData(items, selected);
      if drive == "" || imageFile == "" || drive == RootPath {
        return None;
      }
      var ddCommand := DDCommandLine(imageFile, drive, blockSize);
      ddCommand := EscapeQuotes(ddCommand);
      log := log + ["Executing: " + ddCommand];
      command := Some(ddCommand);
    }

    /** Standard output of the running command goes to the log as it is. */
    method AppendOutput(output: string)
      modifies this`log
      ensures log == old(log) + [output]
    {
      log := log + [output];
    }

    /** Standard error of the running command goes to the log after "Error: ". */
    method AppendError(errorOutput: string)
      modifies this`log
      ensures log == old(log) + ["Error: " + errorOutput]
    {
      log := log + ["Error: " + errorOutput];
    }
  }
}
