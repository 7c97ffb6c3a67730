/**
 * The in-memory state of the notifier: for each series URL, the last chapter
 * number seen and the tracking type it was numbered under.
 */
module State {
  import opened Wrappers
  import opened Chapters
  import opened Tracking

  /** A stored entry. Either field may be missing from a state file that was
      written by hand or by an older version, so both are optional. */
  datatype Entry = Entry(lastChapterNumber: Option<real>, trackingType: Option<string>)

  /** The entry reported for a series with no stored state. */
  const DefaultEntry: Entry := Entry(Some(Unnumbered), Some(UnknownType))

  /** The entry the program writes. */
  function Written(lastChapterNumber: real, trackingType: string): Entry {
    Entry(Some(lastChapterNumber), Some(trackingType))
  }

  function Lookup(state: map<string, Entry>, url: string): Entry {
    if url in state then state[url] else DefaultEntry
  }

  /** The state map, read and upserted in place by the main loop. */
  class StateStore {
    var state: map<string, Entry>

    /** Starts from the map loaded from the state file (empty when the file
        is absent or unreadable). */
    constructor (loaded: map<string, Entry>)
      ensures state == loaded
    {
      state := loaded;
    }

    /** The stored entry for `url`, or the default entry when there is none. */
    function Get(url: string): (e: Entry)
      reads this
      ensures url in state ==> e == state[url]
      ensures url !in state ==> e == DefaultEntry
    {
      Lookup(state, url)
    }

    /** Overwrites (or creates) the entry for `url`; every other entry is
        left as it was. */
    method Update(url: string, lastChapterNumber: real, trackingType: string)
      modifies this
      ensures state == old(state)[url := Written(lastChapterNumber, trackingType)]
      ensures Get(url) == Written(lastChapterNumber, trackingType)
      ensures forall u :: u != url ==> (u in state <==> u in old(state)) && Get(u) == old(Get(u))
    {
      state := state[url := Written(lastChapterNumber, trackingType)];
    }
  }
}
