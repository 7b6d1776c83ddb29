/**
 The directory page as a state machine. Its state is the four `useState`
 values; its transitions are the event handlers: loading from the store,
 typing into the search box, editing the add form, and submitting it.
 */
module IndexPage {
  import opened Options
  import opened Strings
  import opened KeyValue
  import opened Developers

  class Page {
    /** Every record of the last load. */
    var developers: seq<Developer>
    /** The search box's contents, lower-cased. */
    var searchTerm: string
    /** The records shown. */
    var filteredDevelopers: seq<Developer>
    /** The add form's contents. */
    var newDeveloper: Draft
    /** The key-value client the page reads from and writes to. */
    const client: Store<Profile>

    /** Mounting: all lists empty, empty search term, empty form. */
    constructor (client: Store<Profile>)
      ensures developers == [] && filteredDevelopers == [] && searchTerm == ""
      ensures newDeveloper == Draft("", "", "")
      ensures this.client == client
    {
      developers := [];
      searchTerm := "";
      filteredDevelopers := [];
      newDeveloper := Draft("", "", "");
      this.client := client;
    }

    /** The records shown are those of `developers` that match the search term. */
    ghost predicate ShowsSearchResult()
      reads this
    {
      filteredDevelopers == Filter(developers, searchTerm)
    }

    /**
     `fetchDevelopers` once the store has answered with `data`: an answer
     (even an empty list) replaces both lists with the mapped records and so
     drops the search view; no answer changes nothing.
     */
    method Load(data: Option<seq<Entry<Profile>>>)
      modifies this
      ensures data.Some? ==> developers == ToRecords(data.value) && filteredDevelopers == developers
      ensures data.None? ==> developers == old(developers) && filteredDevelopers == old(filteredDevelopers)
      ensures searchTerm == old(searchTerm) && newDeveloper == old(newDeveloper)
      ensures data.Some? ==>
        (ShowsSearchResult() <==> forall i :: 0 <= i < |developers| ==> Matches(developers[i], searchTerm))
    {
      if data.Some? {
        developers := ToRecords(data.value);
        filteredDevelopers := ToRecords(data.value);
        FilterKeepsAll(developers, searchTerm);
      }
    }

    /**
     `handleSearch` with the box's new contents `raw`: the term is lower-cased
     and stored, and the records shown become those that match it (all of
     them for the empty term). Filtering what is shown again changes nothing.
     */
    method Search(raw: string)
      modifies this
      ensures searchTerm == Lower(raw)
      ensures ShowsSearchResult()
      ensures searchTerm == "" ==> filteredDevelopers == developers
      ensures Filter(filteredDevelopers, searchTerm) == filteredDevelopers
      ensures developers == old(developers) && newDeveloper == old(newDeveloper)
    {
      var term := Lower(raw);
      searchTerm := term;
      if term == "" {
        filteredDevelopers := developers;
        FilterEmptyTerm(developers);
      } else {
        filteredDevelopers := Filter(developers, term);
      }
      FilterIdempotent(developers, term);
    }

    /** The name field's `onChange`: only the draft's name changes. */
    method EditName(value: string)
      modifies this
      ensures newDeveloper == old(newDeveloper).(name := value)
      ensures developers == old(developers) && filteredDevelopers == old(filteredDevelopers)
      ensures searchTerm == old(searchTerm)
    {
      newDeveloper := newDeveloper.(name := value);
    }

    /** The location field's `onChange`: only the draft's location changes. */
    method EditLocation(value: string)
      modifies this
      ensures newDeveloper == old(newDeveloper).(location := value)
      ensures developers == old(developers) && filteredDevelopers == old(filteredDevelopers)
      ensures searchTerm == old(searchTerm)
    {
      newDeveloper := newDeveloper.(location := value);
    }

    /** The technologies field's `onChange`: only the draft's raw technologies string changes. */
    method EditTechnologies(value: string)
      modifies this
      ensures newDeveloper == old(newDeveloper).(technologies := value)
      ensures developers == old(developers) && filteredDevelopers == old(filteredDevelopers)
      ensures searchTerm == old(searchTerm)
    {
      newDeveloper := newDeveloper.(technologies := value);
    }

    /**
     `addDeveloper`: the draft is written under `developer:` + name, with its
     technologies split and trimmed, replacing whatever was at that key.
     `success` is the store's answer to the write and `listing` its answer to
     the reload's prefix query (`None` for a null answer). On success the page
     reloads as Load does, and a non-null answer then lists the new record; on
     failure the store and the page stay as they were. The draft is kept
     either way.
     */
    method Add(success: bool, listing: Option<seq<Entry<Profile>>>)
      requires success && listing.Some? ==>
        IsPrefixListing(listing.value, client.entries[DraftKey(newDeveloper) := DraftProfile(newDeveloper)], Prefix)
      modifies this, client
      ensures client.entries ==
        if success then old(client.entries)[DraftKey(newDeveloper) := DraftProfile(newDeveloper)]
        else old(client.entries)
      ensures newDeveloper == old(newDeveloper) && searchTerm == old(searchTerm)
      ensures !(success && listing.Some?) ==>
        developers == old(developers) && filteredDevelopers == old(filteredDevelopers)
      ensures success && listing.Some? ==>
        developers == ToRecords(listing.value) && filteredDevelopers == developers
      ensures success && listing.Some? ==> DraftRecord(newDeveloper) in developers
    {
      var key := DraftKey(newDeveloper);
      var value := DraftProfile(newDeveloper);
      ghost var before := client.entries;
      var ok := client.Set(key, value, success);
      if ok {
        Load(listing);
        if listing.Some? {
          DraftRecordLoaded(newDeveloper, before, listing.value);
        }
      }
    }
  }
}
