// Reading a journal page by page, each page requested by the key of the last entry of the one before.
module JournalPaging {
  // An entry is known by its identifier and its time of occurrence.
  datatype Key = Key(entryId: seq<int>, occurrenceTime: int)
  datatype Entry = Entry(key: Key, variables: seq<string>)

  // A page of the journal and whether the server announces more, or no page at all.
  datatype Reply = Page(entries: seq<Entry>, moreFollows: bool) | NoReply

  predicate DistinctKeys(journal: seq<Entry>) {
    forall i, j :: 0 <= i < j < |journal| ==> journal[i].key != journal[j].key
  }

  // The entries of the journal that stand from a place on, in its order, without a gap.
  predicate Run(journal: seq<Entry>, at: nat, entries: seq<Entry>) {
    at + |entries| <= |journal| && forall k :: 0 <= k < |entries| ==> entries[k] == journal[at + k]
  }

  predicate Fits(journal: seq<Entry>, at: nat, reply: Reply) {
    reply.Page? ==> Run(journal, at, reply.entries)
  }

  // If the journal goes on at that place, a page with entries comes; more is announced only if there is more.
  predicate Delivers(journal: seq<Entry>, at: nat, reply: Reply) {
    at < |journal| ==>
      reply.Page? && reply.entries != [] && (reply.moreFollows ==> at + |reply.entries| < |journal|)
  }

  // If there is more behind the page, that is announced.
  predicate Announces(journal: seq<Entry>, at: nat, reply: Reply) {
    reply.Page? && at + |reply.entries| < |journal| ==> reply.moreFollows
  }

  // The service behind each key of the journal. If keys are distinct, every key is asked for at most once, and
  // the service being a function of the key says no more than that the journal stands still while it is read.
  ghost predicate AllFit(journal: seq<Entry>, startAfter: Key -> Reply) {
    forall i :: 0 <= i < |journal| ==> Fits(journal, i + 1, startAfter(journal[i].key))
  }

  ghost predicate AllDeliver(journal: seq<Entry>, startAfter: Key -> Reply) {
    forall i :: 0 <= i < |journal| ==> Delivers(journal, i + 1, startAfter(journal[i].key))
  }

  ghost predicate AllAnnounce(journal: seq<Entry>, startAfter: Key -> Reply) {
    forall i :: 0 <= i < |journal| ==> Announces(journal, i + 1, startAfter(journal[i].key))
  }

  // Every page that is asked for, from this one on, begins where the one before it ended.
  predicate FitsAlong(journal: seq<Entry>, at: nat, reply: Reply, startAfter: Key -> Reply)
    decreases |journal| - at
  {
    && Fits(journal, at, reply)
    && (reply.Page? && reply.entries != [] && reply.moreFollows ==>
          FitsAlong(journal, at + |reply.entries|, startAfter(reply.entries[|reply.entries| - 1].key), startAfter))
  }

  // Every page that is asked for, from this one on, comes and has entries.
  predicate Supplied(journal: seq<Entry>, at: nat, reply: Reply, startAfter: Key -> Reply)
    decreases |journal| - at
  {
    && reply.Page? && reply.entries != [] && Run(journal, at, reply.entries)
    && (reply.moreFollows ==>
          Supplied(journal, at + |reply.entries|, startAfter(reply.entries[|reply.entries| - 1].key), startAfter))
  }

  // The place behind the last entry of those pages.
  function EndOf(journal: seq<Entry>, at: nat, reply: Reply, startAfter: Key -> Reply): (end: nat)
    decreases |journal| - at
  {
    if reply.NoReply? || reply.entries == [] || !Run(journal, at, reply.entries) then at
    else if !reply.moreFollows then at + |reply.entries|
    else EndOf(journal, at + |reply.entries|, startAfter(reply.entries[|reply.entries| - 1].key), startAfter)
  }

  // The page behind a page of the journal is the one the service keeps for its last entry.
  lemma NextReply(journal: seq<Entry>, at: nat, reply: Reply, startAfter: Key -> Reply)
    requires reply.Page? && reply.entries != [] && Run(journal, at, reply.entries)
    ensures var next := at + |reply.entries|;
            && reply.entries[|reply.entries| - 1].key == journal[next - 1].key
            && (AllFit(journal, startAfter) ==> Fits(journal, next, startAfter(journal[next - 1].key)))
            && (AllDeliver(journal, startAfter) ==> Delivers(journal, next, startAfter(journal[next - 1].key)))
            && (AllAnnounce(journal, startAfter) ==> Announces(journal, next, startAfter(journal[next - 1].key)))
  {
    var last := at + |reply.entries| - 1;
    assert last + 1 == at + |reply.entries|;
    assert reply.entries[|reply.entries| - 1] == journal[last];
  }

  lemma RunExtends(journal: seq<Entry>, start: nat, printed: seq<Entry>, entries: seq<Entry>)
    requires Run(journal, start, printed) && Run(journal, start + |printed|, entries)
    ensures Run(journal, start, printed + entries)
  {
  }

  // The page asked for behind a printed page, and what it means for the rest of the loop.
  lemma PageStep(journal: seq<Entry>, at: nat, entries: seq<Entry>, startAfter: Key -> Reply)
    requires entries != [] && FitsAlong(journal, at, Page(entries, true), startAfter)
    ensures var reply := startAfter(entries[|entries| - 1].key);
            && FitsAlong(journal, at + |entries|, reply, startAfter)
            && Supplied(journal, at, Page(entries, true), startAfter)
               == Supplied(journal, at + |entries|, reply, startAfter)
            && EndOf(journal, at, Page(entries, true), startAfter)
               == EndOf(journal, at + |entries|, reply, startAfter)
  {
  }

  // Asking for the page behind the last entry of a page, if more is announced.
  method NextPage(ghost journal: seq<Entry>, ghost at: nat, entries: seq<Entry>, moreFollows: bool,
                  startAfter: Key -> Reply) returns (reply: Reply)
    requires entries != [] && FitsAlong(journal, at, Page(entries, moreFollows), startAfter)
    ensures var next, page := at + |entries|, Page(entries, moreFollows);
            if moreFollows then
              && FitsAlong(journal, next, reply, startAfter)
              && Supplied(journal, at, page, startAfter) == Supplied(journal, next, reply, startAfter)
              && EndOf(journal, at, page, startAfter) == EndOf(journal, next, reply, startAfter)
            else Supplied(journal, at, page, startAfter) && EndOf(journal, at, page, startAfter) == next
  {
    reply := NoReply;
    if moreFollows {
      PageStep(journal, at, entries, startAfter);
      reply := startAfter(entries[|entries| - 1].key);
    }
  }

  // The read loop; start is where the first page begins in the journal. Whatever the server announces, what is
  // printed is one contiguous run of the journal from there, so each entry once, up to the end of the pages asked
  // for. ok is false if the loop meets a missing page or one without a last entry, which the code dereferences:
  // exactly if some page asked for is not supplied.
  method ReadJournal(ghost journal: seq<Entry>, ghost start: nat, first: Reply, startAfter: Key -> Reply)
    returns (printed: seq<Entry>, ok: bool)
    requires start <= |journal| && FitsAlong(journal, start, first, startAfter)
    ensures Run(journal, start, printed)
    ensures start + |printed| == EndOf(journal, start, first, startAfter)
    ensures ok <==> first.NoReply? || Supplied(journal, start, first, startAfter)
    ensures first.NoReply? ==> printed == []
    ensures first.Page? && !first.moreFollows ==> |printed| == |first.entries|
  {
    printed, ok := [], true;
    if first.NoReply? {
      return;
    }
    var journalEntries, moreFollows := first.entries, first.moreFollows;
    var readNext := true;
    ghost var supplied := Supplied(journal, start, first, startAfter);
    ghost var end := EndOf(journal, start, first, startAfter);
    while moreFollows || readNext
      invariant ok && Run(journal, start, printed)
      invariant readNext ==> FitsAlong(journal, start + |printed|, Page(journalEntries, moreFollows), startAfter)
      invariant supplied == if readNext then
                              Supplied(journal, start + |printed|, Page(journalEntries, moreFollows), startAfter)
                            else true
      invariant end == if readNext then EndOf(journal, start + |printed|, Page(journalEntries, moreFollows), startAfter)
                       else start + |printed|
      invariant !readNext ==> !moreFollows
      decreases |journal| - |printed|, readNext
    {
      readNext := false;
      if journalEntries == [] {
        ok := false;
        return;
      }
      RunExtends(journal, start, printed, journalEntries);
      var reply := NextPage(journal, start + |printed|, journalEntries, moreFollows, startAfter);
      printed := printed + journalEntries;
      if moreFollows {
        if reply.NoReply? {
          ok := false;
          return;
        }
        journalEntries, moreFollows, readNext := reply.entries, reply.moreFollows, true;
      }
    }
  }

  // A service that fits at every key of the journal fits along every run of pages.
  lemma {:induction false} AllFitsAlong(journal: seq<Entry>, at: nat, reply: Reply, startAfter: Key -> Reply)
    requires Fits(journal, at, reply) && AllFit(journal, startAfter)
    ensures FitsAlong(journal, at, reply, startAfter)
    decreases |journal| - at
  {
    if reply.Page? && reply.entries != [] && reply.moreFollows {
      NextReply(journal, at, reply, startAfter);
      var next := at + |reply.entries|;
      AllFitsAlong(journal, next, startAfter(journal[next - 1].key), startAfter);
    }
  }

  // A server that returns a page with entries wherever the journal goes on, and announces more only where there
  // is more, supplies every page: the loop does not fail.
  lemma {:induction false} DeliveryIsEnough(journal: seq<Entry>, at: nat, reply: Reply, startAfter: Key -> Reply)
    requires at < |journal| && Fits(journal, at, reply) && Delivers(journal, at, reply)
    requires AllFit(journal, startAfter) && AllDeliver(journal, startAfter)
    ensures FitsAlong(journal, at, reply, startAfter) && Supplied(journal, at, reply, startAfter)
    decreases |journal| - at
  {
    AllFitsAlong(journal, at, reply, startAfter);
    NextReply(journal, at, reply, startAfter);
    if reply.moreFollows {
      var next := at + |reply.entries|;
      DeliveryIsEnough(journal, next, startAfter(journal[next - 1].key), startAfter);
    }
  }

  // If it also announces more wherever there is more, the loop reads to the end of the journal.
  lemma {:induction false} AnnouncedIsRead(journal: seq<Entry>, at: nat, reply: Reply, startAfter: Key -> Reply)
    requires Fits(journal, at, reply) && Announces(journal, at, reply) && AllFit(journal, startAfter)
    requires AllAnnounce(journal, startAfter) && Supplied(journal, at, reply, startAfter)
    ensures EndOf(journal, at, reply, startAfter) == |journal|
    decreases |journal| - at
  {
    NextReply(journal, at, reply, startAfter);
    if reply.moreFollows {
      var next := at + |reply.entries|;
      AnnouncedIsRead(journal, next, startAfter(journal[next - 1].key), startAfter);
    }
  }

  // A run of a journal whose keys are distinct repeats no entry; with the length, a run is the piece itself.
  lemma RunPrintsOnce(journal: seq<Entry>, at: nat, printed: seq<Entry>)
    requires DistinctKeys(journal) && Run(journal, at, printed)
    ensures DistinctKeys(printed)
    ensures printed == journal[at..at + |printed|]
  {
    forall i, j | 0 <= i < j < |printed| ensures printed[i].key != printed[j].key {
      assert journal[at + i].key != journal[at + j].key;
    }
  }
}
