/**
 The developer records of the directory page and the pure logic the page
 applies to them: turning a prefix query's answer into records, the search
 filter, and turning the add form's draft into a stored value.
 */
module Developers {
  import opened Strings
  import opened KeyValue

  /** A stored value: what the add form writes under a `developer:` key. */
  datatype Profile = Profile(name: string, location: string, technologies: seq<string>)

  /** A record as the page holds it: the stored fields, plus `id`. */
  datatype Developer = Developer(id: string, name: string, location: string, technologies: seq<string>)

  /** The add form: `technologies` is still one comma-separated string. */
  datatype Draft = Draft(name: string, location: string, technologies: string)

  /** The key prefix under which every developer is stored. */
  const Prefix: string := "developer:"

  // ---------------------------------------------------------------------------
  // From a prefix query's answer to records
  // ---------------------------------------------------------------------------

  /** `({ ...d.value, id: d.key })`: the id is the whole key, prefix included, and the pair can be rebuilt. */
  function ToRecord(e: Entry<Profile>): (r: Developer)
    ensures r.id == e.key
    ensures ToEntry(r) == e
  {
    Developer(e.key, e.value.name, e.value.location, e.value.technologies)
  }

  /** `data.map((d) => ({ ...d.value, id: d.key }))`. */
  function ToRecords(data: seq<Entry<Profile>>): (r: seq<Developer>)
    ensures |r| == |data|
    decreases |data|
  {
    if data == [] then [] else [ToRecord(data[0])] + ToRecords(data[1..])
  }

  /** The stored pair a record came from. */
  function ToEntry(d: Developer): Entry<Profile> {
    Entry(d.id, Profile(d.name, d.location, d.technologies))
  }

  function ToEntries(devs: seq<Developer>): (r: seq<Entry<Profile>>)
    ensures |r| == |devs|
    decreases |devs|
  {
    if devs == [] then [] else [ToEntry(devs[0])] + ToEntries(devs[1..])
  }

  /** Record i is made from pair i alone: same position, id equal to the full key, fields copied. */
  lemma {:induction false} ToRecordsAt(data: seq<Entry<Profile>>, i: int)
    requires 0 <= i < |data|
    ensures ToRecords(data)[i].id == data[i].key
    ensures ToRecords(data)[i].name == data[i].value.name
    ensures ToRecords(data)[i].location == data[i].value.location
    ensures ToRecords(data)[i].technologies == data[i].value.technologies
    decreases |data|
  {
    if i > 0 {
      ToRecordsAt(data[1..], i - 1);
    }
  }

  /** The mapping loses nothing: the pairs can be rebuilt from the records, in order. */
  lemma {:induction false} ToRecordsRoundTrip(data: seq<Entry<Profile>>)
    ensures ToEntries(ToRecords(data)) == data
    decreases |data|
  {
    if data != [] {
      ToRecordsRoundTrip(data[1..]);
      assert ToRecords(data)[1..] == ToRecords(data[1..]);
    }
  }

  /**
   Records loaded from a `developer:` query have ids that still carry the
   prefix, that name keys of the store, and that are pairwise distinct.
   */
  lemma LoadedIds(data: seq<Entry<Profile>>, store: map<string, Profile>)
    requires IsPrefixListing(data, store, Prefix)
    ensures forall i :: 0 <= i < |data| ==>
      StartsWith(ToRecords(data)[i].id, Prefix) && ToRecords(data)[i].id in store
    ensures forall i, j :: 0 <= i < j < |data| ==> ToRecords(data)[i].id != ToRecords(data)[j].id
  {
    forall i | 0 <= i < |data| ensures ToRecords(data)[i].id == data[i].key {
      ToRecordsAt(data, i);
    }
  }

  // ---------------------------------------------------------------------------
  // The search filter
  // ---------------------------------------------------------------------------

  /**
   `techs.some((tech) => tech.toLowerCase().includes(term))`: never true of
   an empty list, and true of every other list for the empty term.
   */
  predicate SomeTechMatches(techs: seq<string>, term: string)
    ensures SomeTechMatches(techs, term) ==> |techs| > 0
    ensures term == [] ==> (SomeTechMatches(techs, term) <==> |techs| > 0)
    decreases |techs|
  {
    |techs| > 0 && (Contains(Lower(techs[0]), term) || SomeTechMatches(techs[1..], term))
  }

  /** `some` holds exactly when one of the technologies contains the term. */
  lemma {:induction false} SomeTechMatchesIff(techs: seq<string>, term: string)
    ensures SomeTechMatches(techs, term) <==> exists i :: 0 <= i < |techs| && Contains(Lower(techs[i]), term)
    decreases |techs|
  {
    if |techs| > 0 {
      SomeTechMatchesIff(techs[1..], term);
      if SomeTechMatches(techs[1..], term) {
        var i :| 0 <= i < |techs| - 1 && Contains(Lower(techs[1..][i]), term);
        assert techs[1..][i] == techs[i + 1];
      }
      forall i | 1 <= i < |techs| && Contains(Lower(techs[i]), term)
        ensures SomeTechMatches(techs[1..], term)
      {
        assert techs[1..][i - 1] == techs[i];
      }
    }
  }

  /**
   The filter's test for one record, for a term that is already lower-cased:
   the lower-cased name, location or some lower-cased technology contains it.
   */
  predicate Matches(dev: Developer, term: string)
    ensures Matches(dev, term) <==>
      Contains(Lower(dev.name), term) || Contains(Lower(dev.location), term) ||
      exists i :: 0 <= i < |dev.technologies| && Contains(Lower(dev.technologies[i]), term)
  {
    SomeTechMatchesIff(dev.technologies, term);
    Contains(Lower(dev.name), term)
    || Contains(Lower(dev.location), term)
    || SomeTechMatches(dev.technologies, term)
  }

  /** A record without technologies can only match through its name or location. */
  lemma MatchesWithoutTechnologies(dev: Developer, term: string)
    requires dev.technologies == []
    ensures Matches(dev, term) <==> Contains(Lower(dev.name), term) || Contains(Lower(dev.location), term)
  {
  }

  /** Every record matches the empty term. */
  lemma MatchesEmptyTerm(dev: Developer)
    ensures Matches(dev, "")
  {
    ContainsEmpty(Lower(dev.name));
  }

  /** `devs.filter((dev) => Matches(dev, term))`: only matching records survive. */
  function Filter(devs: seq<Developer>, term: string): (r: seq<Developer>)
    ensures |r| <= |devs|
    ensures forall i :: 0 <= i < |r| ==> Matches(r[i], term)
    decreases |devs|
  {
    if devs == [] then []
    else if Matches(devs[0], term) then [devs[0]] + Filter(devs[1..], term)
    else Filter(devs[1..], term)
  }

  /** `a` is `b` with some elements left out, the rest in their original order. */
  ghost predicate IsSubsequence<T>(a: seq<T>, b: seq<T>)
    decreases |b|
  {
    a == [] || (b != [] && ((a[0] == b[0] && IsSubsequence(a[1..], b[1..])) || IsSubsequence(a, b[1..])))
  }

  /** The filter keeps order: its result is a subsequence of its input. */
  lemma {:induction false} FilterIsSubsequence(devs: seq<Developer>, term: string)
    ensures IsSubsequence(Filter(devs, term), devs)
    decreases |devs|
  {
    if devs != [] {
      FilterIsSubsequence(devs[1..], term);
      if Matches(devs[0], term) {
        assert Filter(devs, term)[1..] == Filter(devs[1..], term);
      }
    }
  }

  /**
   The filter keeps exactly the matching records: each matching record as
   often as it occurs in the input, each other record not at all.
   */
  lemma {:induction false} FilterCount(devs: seq<Developer>, term: string, d: Developer)
    ensures multiset(Filter(devs, term))[d] == if Matches(d, term) then multiset(devs)[d] else 0
    decreases |devs|
  {
    if devs != [] {
      FilterCount(devs[1..], term, d);
      assert devs == [devs[0]] + devs[1..];
      assert multiset(devs) == multiset{devs[0]} + multiset(devs[1..]);
      if Matches(devs[0], term) {
        assert multiset(Filter(devs, term)) == multiset{devs[0]} + multiset(Filter(devs[1..], term));
      }
    }
  }

  /** A record is in the filtered list exactly when it is in the input and matches. */
  lemma FilterMembership(devs: seq<Developer>, term: string, d: Developer)
    ensures d in Filter(devs, term) <==> d in devs && Matches(d, term)
  {
    FilterCount(devs, term, d);
    assert d in Filter(devs, term) <==> multiset(Filter(devs, term))[d] > 0;
    assert d in devs <==> multiset(devs)[d] > 0;
  }

  /** The filter returns its input unchanged exactly when every record matches. */
  lemma {:induction false} FilterKeepsAll(devs: seq<Developer>, term: string)
    ensures Filter(devs, term) == devs <==> forall i :: 0 <= i < |devs| ==> Matches(devs[i], term)
    decreases |devs|
  {
    if devs != [] {
      FilterKeepsAll(devs[1..], term);
      if !Matches(devs[0], term) {
        assert |Filter(devs, term)| < |devs|;
      } else if Filter(devs, term) == devs {
        assert Filter(devs[1..], term) == devs[1..];
      } else {
        assert Filter(devs[1..], term) != devs[1..];
        forall i | 0 <= i < |devs| - 1 ensures devs[1..][i] == devs[i + 1] { }
      }
    }
  }

  /** An empty term keeps every record, so `handleSearch`'s shortcut agrees with the filter. */
  lemma FilterEmptyTerm(devs: seq<Developer>)
    ensures Filter(devs, "") == devs
  {
    forall i | 0 <= i < |devs| ensures Matches(devs[i], "") {
      MatchesEmptyTerm(devs[i]);
    }
    FilterKeepsAll(devs, "");
  }

  /** Filtering the filtered list again with the same term changes nothing. */
  lemma FilterIdempotent(devs: seq<Developer>, term: string)
    ensures Filter(Filter(devs, term), term) == Filter(devs, term)
  {
    FilterKeepsAll(Filter(devs, term), term);
  }

  // ---------------------------------------------------------------------------
  // From the add form's draft to a stored value
  // ---------------------------------------------------------------------------

  /** A piece without the separator keeps none after trimming. */
  lemma TrimKeepsOut(s: string, c: char)
    requires c !in s
    ensures c !in Trim(s)
  {
    TrimCutsOnlySpace(s);
    var r, a := Trim(s), Leading(s);
    forall j | 0 <= j < |r| ensures r[j] != c {
      assert r[j] == s[a + j];
    }
  }

  /** Trimming pieces without the separator leaves pieces without it. */
  lemma TrimAllKeepsOut(pieces: seq<string>, c: char)
    requires forall i :: 0 <= i < |pieces| ==> c !in pieces[i]
    ensures forall i :: 0 <= i < |pieces| ==> c !in TrimAll(pieces)[i]
  {
    forall i | 0 <= i < |pieces| ensures c !in TrimAll(pieces)[i] {
      TrimKeepsOut(pieces[i], c);
    }
  }

  /**
   `technologies.split(",").map((tech) => tech.trim())`: one entry more than
   there are commas (empty entries stay), each entry without a comma and
   without whitespace at either end.
   */
  function SplitTrim(s: string): (r: seq<string>)
    ensures |r| == Count(s, ',') + 1
    ensures forall i :: 0 <= i < |r| ==> NoEdgeSpace(r[i]) && ',' !in r[i]
  {
    SplitOmitsSeparator(s, ',');
    TrimAllKeepsOut(Split(s, ','), ',');
    TrimAll(Split(s, ','))
  }

  /**
   The entries of SplitTrim are the trimmed pieces of `s` between commas,
   and those untrimmed pieces joined with commas are `s` again.
   */
  lemma SplitTrimPieces(s: string)
    ensures var pieces := Split(s, ',');
      Join(pieces, ',') == s && |SplitTrim(s)| == |pieces|
      && forall i :: 0 <= i < |pieces| ==> SplitTrim(s)[i] == Trim(pieces[i])
  {
    JoinSplit(s, ',');
  }

  /** An empty technologies field gives one empty technology, not none. */
  lemma SplitTrimEmpty()
    ensures SplitTrim("") == [""]
  {
    assert Trim("") == "";
  }

  /** A field holding one comma gives its two trimmed halves. */
  lemma SplitTrimTwo(a: string, b: string)
    requires ',' !in a && ',' !in b
    ensures SplitTrim(a + [','] + b) == [Trim(a), Trim(b)]
  {
    var pieces := Split(a + [','] + b, ',');
    assert pieces == [a, b] by {
      SplitTwo(a, b, ',');
    }
    var r := TrimAll(pieces);
    assert |r| == 2 && r[0] == Trim(a) && r[1] == Trim(b);
  }

  /** The key the draft is written under (`developer:${name}`). */
  function DraftKey(d: Draft): (k: string)
    ensures StartsWith(k, Prefix) && k[|Prefix|..] == d.name
  {
    Prefix + d.name
  }

  /** Two drafts are written under the same key exactly when their names agree. */
  lemma DraftKeyCollides(a: Draft, b: Draft)
    ensures DraftKey(a) == DraftKey(b) <==> a.name == b.name
  {
  }

  /** `{ ...newDeveloper, technologies: techArray }`. */
  function DraftProfile(d: Draft): (p: Profile)
    ensures p.name == d.name && p.location == d.location
    ensures |p.technologies| == Count(d.technologies, ',') + 1
  {
    Profile(d.name, d.location, SplitTrim(d.technologies))
  }

  /** The record the page shows for a stored draft once it has been loaded back. */
  function DraftRecord(d: Draft): Developer {
    ToRecord(Entry(DraftKey(d), DraftProfile(d)))
  }

  /**
   After the draft is written, any answer to the `developer:` query loads a
   record for it, and it is the only record with that id: a draft with the
   same name written before is replaced.
   */
  lemma DraftRecordLoaded(d: Draft, store: map<string, Profile>, listing: seq<Entry<Profile>>)
    requires IsPrefixListing(listing, store[DraftKey(d) := DraftProfile(d)], Prefix)
    ensures DraftRecord(d) in ToRecords(listing)
    ensures forall i :: 0 <= i < |listing| && ToRecords(listing)[i].id == DraftKey(d) ==>
      ToRecords(listing)[i] == DraftRecord(d)
  {
    var key := DraftKey(d);
    assert key in Keys(listing);
    var j :| 0 <= j < |listing| && listing[j].key == key;
    ToRecordsAt(listing, j);
    assert ToRecords(listing)[j] == DraftRecord(d);
    forall i | 0 <= i < |listing| && ToRecords(listing)[i].id == key
      ensures ToRecords(listing)[i] == DraftRecord(d)
    {
      ToRecordsAt(listing, i);
    }
  }

  // ---------------------------------------------------------------------------
  // Worked examples
  // ---------------------------------------------------------------------------

  /** One stored developer loads as one record whose id is the full key. */
  lemma LoadOneExample()
    ensures ToRecords([Entry("developer:Ada", Profile("Ada", "NYC", ["React"]))])
         == [Developer("developer:Ada", "Ada", "NYC", ["React"])]
  {
  }

  /** Searching "nyc" keeps a record located in "NYC". */
  lemma SearchLocationExample()
    ensures Matches(Developer("developer:Ada", "Ada", "NYC", ["React"]), "nyc")
  {
    assert Lower("NYC") == "nyc";
    assert StartsWith(Lower("NYC"), "nyc");
  }

  /**
   The two pieces of `"React, Node "` trim to `"React"` and `"Node"`. The
   strings come in as parameters pinned by `requires`, because string literals
   in the body would make the verifier unfold Trim and Split eagerly.
   */
  lemma TrimExample(a: string, b: string)
    requires a == "React" && b == " Node "
    ensures Trim(a) == "React" && Trim(b) == "Node"
  {
    assert Leading(a) == 0 && Trailing(a) == 0;
    assert Leading(b) == 1;
    assert Trailing(b[1..]) == 1;
  }

  /** `"React, Node "` becomes `["React", "Node"]` (strings pinned by `requires`, as in TrimExample). */
  lemma SplitTrimExample(a: string, b: string)
    requires a == "React" && b == " Node "
    ensures SplitTrim(a + [','] + b) == ["React", "Node"]
  {
    SplitTrimTwo(a, b);
    TrimExample(a, b);
  }
}
