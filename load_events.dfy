/** `moobot/load_events.py`: seeding the event table from a file. The names
    already in the table are read once; every file entry whose name is not
    among them has its date parsed and is added, and all the additions are
    committed together after the loop. */
module LoadEvents {
  import opened Wrappers
  import opened Exceptions
  import opened Seqs
  import opened Models
  import opened Db

  /** One entry of the file's `events` list: the columns it gives the new
      row (its id is left to the table), and whether `datetime.fromisoformat`
      accepts its `date` text. */
  datatype FileEvent = FileEvent(columns: Event, dateParses: bool)

  /** `{n[0] for n in session.query(MoobloomEvent.name).all()}`: deleted
      rows included. */
  function Names(events: seq<Event>): (r: set<string>)
    ensures forall e :: e in events ==> e.name in r
    ensures forall n :: n in r ==> exists e :: e in events && e.name == n
  {
    set e | e in events :: e.name
  }

  /** The entries the loop adds: those whose name was not in the table
      before the loop, in file order. */
  function Added(file: seq<FileEvent>, existing: set<string>): (r: seq<FileEvent>)
  {
    Filter(file, (f: FileEvent) => f.columns.name !in existing)
  }

  /** The rows the added entries become: their columns, numbered by the
      id sequence from `next` on. */
  function Numbered(entries: seq<FileEvent>, next: nat): (r: seq<Event>)
    ensures |r| == |entries|
    ensures forall k :: 0 <= k < |entries| ==> r[k] == entries[k].columns.(id := next + k)
  {
    seq(|entries|, k requires 0 <= k < |entries| => entries[k].columns.(id := next + k))
  }

  lemma NumberedAppend(entries: seq<FileEvent>, x: FileEvent, next: nat)
    ensures Numbered(entries + [x], next) == Numbered(entries, next) + [x.columns.(id := next + |entries|)]
  {
  }

  /** The entries the loop skips. */
  function Skipped(file: seq<FileEvent>, existing: set<string>): (r: seq<FileEvent>)
  {
    Filter(file, (f: FileEvent) => f.columns.name in existing)
  }

  /** The loop of `load_events_from_file`: each entry with a new name has
      its date parsed (ValueError when it does not parse) and is added to
      the session as the row with the next id; `added` counts them. */
  method AddNewEntries(file: seq<FileEvent>, existing: set<string>, next: nat)
    returns (r: Result<seq<Event>, Exception>, added: nat)
    ensures r.Err? <==> exists k :: 0 <= k < |file| && file[k].columns.name !in existing && !file[k].dateParses
    ensures r.Err? ==> r.error == ValueError
    ensures r.Ok? ==> r.value == Numbered(Added(file, existing), next) && added == |Added(file, existing)|
  {
    var pending: seq<Event> := [];
    added := 0;
    var i := 0;
    while i < |file|
      invariant i <= |file|
      invariant pending == Numbered(Added(file[..i], existing), next)
      invariant added == |pending|
      invariant forall k :: 0 <= k < i ==> file[k].columns.name in existing || file[k].dateParses
    {
      var entry := file[i];
      assert file[..i + 1] == file[..i] + [entry];
      FilterAppend(file[..i], entry, (f: FileEvent) => f.columns.name !in existing);
      if entry.columns.name !in existing {
        if !entry.dateParses {
          return Err(ValueError), added;
        }
        NumberedAppend(Added(file[..i], existing), entry, next);
        pending := pending + [entry.columns.(id := next + added)];
        added := added + 1;
      }
      i := i + 1;
    }
    assert file[..i] == file;
    r := Ok(pending);
  }

  /** New rows numbered from the sequence's next value keep the key unique
      and below the new next value. */
  lemma AppendNumberedKeepsValid(events: seq<Event>, entries: seq<FileEvent>, next: nat)
    requires UniqueIds(events) && forall i :: 0 <= i < |events| ==> events[i].id < next && WellTyped(events[i])
    requires forall k :: 0 <= k < |entries| ==> WellTyped(entries[k].columns)
    ensures var all := events + Numbered(entries, next);
      && UniqueIds(all)
      && forall i :: 0 <= i < |all| ==> all[i].id < next + |entries| && WellTyped(all[i])
  {
    var all := events + Numbered(entries, next);
    forall i | 0 <= i < |all| ensures all[i].id < next + |entries| && WellTyped(all[i]) {
      if i >= |events| {
        assert all[i] == entries[i - |events|].columns.(id := next + i - |events|);
      }
    }
    forall i, j | 0 <= i < j < |all| ensures all[i].id != all[j].id {
      if j >= |events| {
        assert all[j].id == next + j - |events|;
        if i >= |events| {
          assert all[i].id == next + i - |events|;
        }
      }
    }
  }

  /** `load_events_from_file` once the file is read. An entry with a new
      name whose date does not parse raises ValueError, and the session is
      closed without a commit, so nothing is stored; otherwise the new
      entries are stored in file order with fresh ids, committed once, and
      their number is what is logged. */
  method LoadEventsFromFile(s: Store, file: seq<FileEvent>) returns (r: Result<nat, Exception>)
    requires s.Valid()
    requires forall k :: 0 <= k < |file| ==> WellTyped(file[k].columns)
    modifies s
    ensures s.Valid()
    ensures var existing := Names(old(s.events));
      r.Err? <==> exists k :: 0 <= k < |file| && file[k].columns.name !in existing && !file[k].dateParses
    ensures r.Err? ==> r.error == ValueError && s.State() == old(s.State())
    ensures r.Ok? ==>
      var added := Added(file, Names(old(s.events)));
      && r.value == |added|
      && s.State() == old(s.State()).(events := old(s.events) + Numbered(added, old(s.nextEventId)),
                                      nextEventId := old(s.nextEventId) + |added|,
                                      commits := old(s.commits) + 1)
  {
    var existing := Names(s.events);
    var pending, added := AddNewEntries(file, existing, s.nextEventId);
    if pending.Err? {
      return Err(pending.error);
    }
    SkipsExistingNames(file, existing);
    var entries := Added(file, existing);
    forall k | 0 <= k < |entries| ensures WellTyped(entries[k].columns) {
      assert entries[k] in entries;
    }
    AppendNumberedKeepsValid(s.events, entries, s.nextEventId);
    s.events := s.events + pending.value;
    s.nextEventId := s.nextEventId + added;
    s.commits := s.commits + 1;
    r := Ok(added);
  }

  /** No added entry has a name the table already had. */
  lemma SkipsExistingNames(file: seq<FileEvent>, existing: set<string>)
    ensures forall x :: x in Added(file, existing) <==> x in file && x.columns.name !in existing
  {
    FilterSound(file, (f: FileEvent) => f.columns.name !in existing);
    FilterAll(file, (f: FileEvent) => f.columns.name !in existing);
  }

  /** The names are read once, before the loop: an entry with a new name is
      added as many times as it occurs in the file, so two same-named
      entries are both added; added and skipped entries make up the file. */
  lemma NewEntriesAllAdded(file: seq<FileEvent>, existing: set<string>, x: FileEvent)
    ensures x.columns.name !in existing ==> multiset(Added(file, existing))[x] == multiset(file)[x]
    ensures |Added(file, existing)| + |Skipped(file, existing)| == |file|
  {
    FilterPartition(file, (f: FileEvent) => f.columns.name !in existing, (f: FileEvent) => f.columns.name in existing);
    FilterSound(file, (f: FileEvent) => f.columns.name in existing);
    var a, b := Added(file, existing), Skipped(file, existing);
    assert multiset(a) + multiset(b) == multiset(file);
    assert |multiset(a)| == |a| && |multiset(b)| == |b| && |multiset(file)| == |file|;
    if x.columns.name !in existing {
      assert x !in b;
      assert multiset(b)[x] == 0;
    }
  }
}
