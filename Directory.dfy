/**
 The directory client's decisions, with the remote service replaced by
 scripted replies: the paginated listing (getAllContacts), the
 existence check (getContact) and the create call with its retries and the
 shared import counter (createContact, loopThroughChunk).
 */
module Directory {
  import opened Values
  import opened Source
  import Reconcile
  import Partition

  // ---------------------------------------------------------------- listing

  /** One listed contact: its directory id and its external reference. */
  datatype Element = Element(contactId: Value, extRef: Value)

  /** One reply of the list call: status envelope, elements, and the
      next-page link (`Null` when there are no more pages). */
  datatype Page = Page(status: string, elements: seq<Element>, nextPage: Value)

  /** The contact id of each element of a page, in order. */
  function ContactIds(elements: seq<Element>): seq<Value>
  {
    seq(|elements|, k requires 0 <= k < |elements| => elements[k].contactId)
  }

  /** The external reference of each element of a page, in order. */
  function ExtRefs(elements: seq<Element>): seq<Value>
  {
    seq(|elements|, k requires 0 <= k < |elements| => elements[k].extRef)
  }

  /** The elements of the pages the listing visits: each page in turn,
      stopping after the first page without a next-page link (or at the end
      of the scripted replies). */
  function Listed(pages: seq<Page>): seq<Element>
    decreases |pages|
  {
    if pages == [] then []
    else pages[0].elements + if pages[0].nextPage == Null then [] else Listed(pages[1..])
  }

  lemma ListsAppend(done: seq<Element>, more: seq<Element>)
    ensures ContactIds(done + more) == ContactIds(done) + ContactIds(more)
    ensures ExtRefs(done + more) == ExtRefs(done) + ExtRefs(more)
  {
  }

  /** One step of the listing: the elements listed so far, then page `i`'s,
      then the listing from the next page when page `i` links to one; the
      two lists of the elements so far grow by page `i`'s lists. */
  lemma ListingStep(pages: seq<Page>, i: nat, done: seq<Element>)
    requires i < |pages|
    ensures done + Listed(pages[i..]) ==
      done + pages[i].elements + if pages[i].nextPage == Null then [] else Listed(pages[i + 1..])
    ensures ContactIds(done + pages[i].elements) == ContactIds(done) + ContactIds(pages[i].elements)
    ensures ExtRefs(done + pages[i].elements) == ExtRefs(done) + ExtRefs(pages[i].elements)
  {
    var rest := if pages[i].nextPage == Null then [] else Listed(pages[i + 1..]);
    assert pages[i..][1..] == pages[i + 1..];
    assert Listed(pages[i..]) == pages[i].elements + rest;
    assert done + (pages[i].elements + rest) == done + pages[i].elements + rest;
    ListsAppend(done, pages[i].elements);
  }

  /** getAllContacts over the replies the directory gives, first page first.
      Only the first page's status is looked at: when it is not "200" both
      lists are empty. Otherwise the lists hold the contact ids and external
      references of every visited page, in page order, aligned by index. */
  method GetAllContacts(pages: seq<Page>) returns (allExtRefs: seq<Value>, allContactIds: seq<Value>)
    requires |pages| > 0
    ensures !IsOk(pages[0].status) ==> allExtRefs == [] && allContactIds == []
    ensures IsOk(pages[0].status) ==>
      allContactIds == ContactIds(Listed(pages)) && allExtRefs == ExtRefs(Listed(pages))
  {
    allExtRefs, allContactIds := [], [];
    if IsOk(pages[0].status) {
      var i := 0;
      ghost var done: seq<Element> := [];
      while i < |pages|
        invariant 0 <= i <= |pages|
        invariant Listed(pages) == done + Listed(pages[i..])
        invariant allContactIds == ContactIds(done) && allExtRefs == ExtRefs(done)
      {
        var response := pages[i];
        ListingStep(pages, i, done);
        var contactList := ContactIds(response.elements);
        var refList := ExtRefs(response.elements);
        allContactIds := allContactIds + contactList;
        allExtRefs := allExtRefs + refList;
        done := done + response.elements;
        if response.nextPage == Null {
          return;
        }
        i := i + 1;
      }
      assert pages[i..] == [];
      assert Listed(pages) == done;
    }
  }

  /** The two lists of a listing have equal length and are aligned: index k
      of both comes from the same listed contact. */
  lemma ListingAligned(pages: seq<Page>)
    ensures |ContactIds(Listed(pages))| == |ExtRefs(Listed(pages))| == |Listed(pages)|
    ensures forall k :: 0 <= k < |Listed(pages)| ==>
      Element(ContactIds(Listed(pages))[k], ExtRefs(Listed(pages))[k]) == Listed(pages)[k]
  {
  }

  /** The elements of the given pages, joined in order. */
  function AllElements(pages: seq<Page>): seq<Element>
  {
    Partition.Flatten(seq(|pages|, i requires 0 <= i < |pages| => pages[i].elements))
  }

  /** When every page before `j` links to a next page and page `j` does not,
      the listing is all elements of pages 0 to `j`, in page order. */
  lemma {:induction false} ListedChain(pages: seq<Page>, j: nat)
    requires j < |pages| && pages[j].nextPage == Null
    requires forall i :: 0 <= i < j ==> pages[i].nextPage != Null
    ensures Listed(pages) == AllElements(pages[..j + 1])
    decreases j
  {
    var parts := seq(|pages[..j + 1]|, i requires 0 <= i < j + 1 => pages[..j + 1][i].elements);
    if j == 0 {
      assert parts == [pages[0].elements];
      assert Partition.Flatten(parts) == Partition.Flatten(parts[..0]) + parts[0];
    } else {
      ListedChain(pages[1..], j - 1);
      var rest := seq(j, i requires 0 <= i < j => pages[1..][..j][i].elements);
      assert parts == [pages[0].elements] + rest;
      Partition.FlattenAppend([pages[0].elements], rest);
      assert Partition.Flatten([pages[0].elements]) == pages[0].elements by {
        assert Partition.Flatten([pages[0].elements]) == Partition.Flatten([pages[0].elements][..0]) + pages[0].elements;
      }
    }
  }

  // ---------------------------------------------------------- existence check

  /** One reply of the search-by-external-reference call: its status
      envelope and the number of contacts found. */
  datatype Search = Search(status: string, matches: nat)

  /** What a call of getContact ends with. `Answered(b)` returns the boolean
      `b`; `Discarded` returns `None`: the first search failed, the retried
      call's answer was thrown away; `Hangs`: no scripted search succeeds, so
      the call would keep retrying. */
  datatype Lookup = Answered(found: bool) | Discarded | Hangs

  /** getContact over the search replies of its attempts, first attempt
      first. */
  function GetContact(searches: seq<Search>): (r: Lookup)
    ensures r.Answered? <==> |searches| > 0 && IsOk(searches[0].status)
    ensures r.Answered? ==> (r.found <==> searches[0].matches > 0)
    ensures r == Hangs ==> forall i :: 0 <= i < |searches| ==> !IsOk(searches[i].status)
    decreases |searches|
  {
    if searches == [] then Hangs
    else if IsOk(searches[0].status) then Answered(searches[0].matches > 0)
    else if GetContact(searches[1..]) == Hangs then
      assert forall i :: 1 <= i < |searches| ==> searches[i] == searches[1..][i - 1];
      Hangs
    else Discarded
  }

  /** getContact's answer is truthy if and only if its FIRST search succeeds
      and finds a contact, whatever the retries find. */
  lemma GetContactTruthy(searches: seq<Search>)
    ensures GetContact(searches) == Answered(true) <==>
      |searches| > 0 && IsOk(searches[0].status) && searches[0].matches > 0
  {
  }

  /** getContact returns if and only if some scripted search succeeds. */
  lemma {:induction false} GetContactReturns(searches: seq<Search>)
    ensures GetContact(searches) != Hangs <==> exists i :: 0 <= i < |searches| && IsOk(searches[i].status)
    decreases |searches|
  {
    if searches != [] && !IsOk(searches[0].status) {
      GetContactReturns(searches[1..]);
      if exists i :: 0 <= i < |searches| && IsOk(searches[i].status) {
        var i :| 0 <= i < |searches| && IsOk(searches[i].status);
        assert searches[1..][i - 1] == searches[i];
      }
      if exists i :: 0 <= i < |searches[1..]| && IsOk(searches[1..][i].status) {
        var i :| 0 <= i < |searches[1..]| && IsOk(searches[1..][i].status);
        assert searches[i + 1] == searches[1..][i];
      }
    }
  }

  /** A failed first search followed by one that finds the contact still
      gives a falsy answer. */
  lemma RetriedSearchDiscarded()
    ensures GetContact([Search("500 - Internal Server Error", 0), Search("200 - OK", 1)]) == Discarded
  {
    assert StatusCode("500 - Internal Server Error") == "500";
    assert StatusCode("200 - OK") == "200";
    assert [Search("500 - Internal Server Error", 0), Search("200 - OK", 1)][1..] == [Search("200 - OK", 1)];
  }

  // ------------------------------------------------------------------ create

  /** One reply of the create call: its status envelope and, used when the
      status is "504", the search replies of the existence check that
      follows. */
  datatype CreateReply = CreateReply(status: string, searches: seq<Search>)

  /** How one call of createContact ends: no request for a blank employee id,
      a "200" (counted), a gateway timeout after which the contact is found
      (not counted), or still retrying when the scripted replies run out. */
  datatype CreateOutcome = Skipped | Imported | AlreadyExists | Unfinished

  /** The attempt is followed by another create attempt: its status is not
      "200", and if it is "504" the existence check returns a falsy answer. */
  predicate Retries(reply: CreateReply)
  {
    !IsOk(reply.status) &&
    (StatusCode(reply.status) == "504" ==>
      GetContact(reply.searches) == Answered(false) || GetContact(reply.searches) == Discarded)
  }

  /** The attempts from the first scripted reply on. */
  function CreateRun(replies: seq<CreateReply>): (r: CreateOutcome)
    ensures r != Skipped
    decreases |replies|
  {
    if replies == [] then Unfinished
    else if IsOk(replies[0].status) then Imported
    else if StatusCode(replies[0].status) == "504" then
      match GetContact(replies[0].searches)
      case Hangs => Unfinished
      case Answered(true) => AlreadyExists
      case _ => CreateRun(replies[1..])
    else CreateRun(replies[1..])
  }

  /** createContact for one details list: no request when `str(details[7])`
      is blank, the retrying run otherwise. */
  function CreateOutcomeOf(staffDetails: seq<Value>, replies: seq<CreateReply>): (r: CreateOutcome)
    requires IsStaffRow(staffDetails)
    ensures r == Skipped <==> staffDetails[7] == Text("")
  {
    if ExtRef(staffDetails) != "" then CreateRun(replies) else Skipped
  }

  /** The run ends at the first reply that does not retry: "200" counts,
      "504" with a truthy check ends without counting, "504" with a check
      that never returns never ends. */
  lemma {:induction false} RunEndsAtFirstStop(replies: seq<CreateReply>, j: nat)
    requires j < |replies| && !Retries(replies[j])
    requires forall i :: 0 <= i < j ==> Retries(replies[i])
    ensures CreateRun(replies) ==
      if IsOk(replies[j].status) then Imported
      else if GetContact(replies[j].searches) == Hangs then Unfinished
      else AlreadyExists
    decreases j
  {
    if j > 0 {
      assert Retries(replies[0]);
      forall i | 0 <= i < j - 1
        ensures Retries(replies[1..][i])
      {
        assert replies[1..][i] == replies[i + 1];
      }
      RunEndsAtFirstStop(replies[1..], j - 1);
    }
  }

  /** When every scripted reply retries, the run has not finished. */
  lemma {:induction false} RunExhausted(replies: seq<CreateReply>)
    requires forall i :: 0 <= i < |replies| ==> Retries(replies[i])
    ensures CreateRun(replies) == Unfinished
    decreases |replies|
  {
    if replies != [] {
      assert Retries(replies[0]);
      forall i | 0 <= i < |replies| - 1
        ensures Retries(replies[1..][i])
      {
        assert replies[1..][i] == replies[i + 1];
      }
      RunExhausted(replies[1..]);
    }
  }

  /** A run is counted if and only if some reply is a "200" and every reply
      before it retries. */
  lemma ImportedIff(replies: seq<CreateReply>)
    ensures CreateRun(replies) == Imported <==>
      exists j :: 0 <= j < |replies| && IsOk(replies[j].status) && forall i :: 0 <= i < j ==> Retries(replies[i])
  {
    if exists j :: 0 <= j < |replies| && !Retries(replies[j]) {
      var j := FirstStop(replies);
      RunEndsAtFirstStop(replies, j);
      if exists j' :: 0 <= j' < |replies| && IsOk(replies[j'].status) && forall i :: 0 <= i < j' ==> Retries(replies[i]) {
        var j' :| 0 <= j' < |replies| && IsOk(replies[j'].status) && forall i :: 0 <= i < j' ==> Retries(replies[i]);
        assert !Retries(replies[j']);
        assert j' == j;
      }
    } else {
      RunExhausted(replies);
    }
  }

  /** Reply `j` is a "504" whose check finds the contact, and every reply
      before it retries. */
  predicate FoundAfterRetries(replies: seq<CreateReply>, j: nat)
  {
    j < |replies| && StatusCode(replies[j].status) == "504" &&
    GetContact(replies[j].searches) == Answered(true) && forall i :: 0 <= i < j ==> Retries(replies[i])
  }

  /** A run ends without counting, the contact already present, if and only
      if some reply is a "504" whose check finds the contact and every reply
      before it retries. */
  lemma AlreadyExistsIff(replies: seq<CreateReply>)
    ensures CreateRun(replies) == AlreadyExists <==> exists j :: FoundAfterRetries(replies, j)
  {
    if CreateRun(replies) == AlreadyExists {
      var j := FoundAt(replies);
      assert FoundAfterRetries(replies, j);
    } else if exists j :: FoundAfterRetries(replies, j) {
      var j :| FoundAfterRetries(replies, j);
      RunEndsAtFirstStop(replies, j);
    }
  }

  /** Where a run that ended with the contact already present found it. */
  lemma FoundAt(replies: seq<CreateReply>) returns (j: nat)
    requires CreateRun(replies) == AlreadyExists
    ensures j < |replies| && StatusCode(replies[j].status) == "504" && GetContact(replies[j].searches) == Answered(true)
    ensures forall i :: 0 <= i < j ==> Retries(replies[i])
  {
    if forall k :: 0 <= k < |replies| ==> Retries(replies[k]) {
      RunExhausted(replies);
      assert false;
    }
    j := FirstStop(replies);
    RunEndsAtFirstStop(replies, j);
  }

  /** The index of the first reply that does not retry. */
  lemma FirstStop(replies: seq<CreateReply>) returns (j: nat)
    requires exists j :: 0 <= j < |replies| && !Retries(replies[j])
    ensures j < |replies| && !Retries(replies[j])
    ensures forall i :: 0 <= i < j ==> Retries(replies[i])
  {
    j := 0;
    while Retries(replies[j])
      invariant j < |replies|
      invariant forall i :: 0 <= i < j ==> Retries(replies[i])
      invariant exists k :: j <= k < |replies| && !Retries(replies[k])
      decreases |replies| - j
    {
      j := j + 1;
    }
  }

  /** The details checkNewStaff issues always take the request path. */
  lemma NewStaffNeverSkipped(chunk: seq<seq<Value>>, qExtRefs: seq<Value>, replies: seq<CreateReply>)
    requires StaffRows(chunk)
    ensures forall d :: d in Reconcile.NewStaff(chunk, qExtRefs) ==>
      IsStaffRow(d) && CreateOutcomeOf(d, replies) != Skipped
  {
    Reconcile.NewStaffExactly(chunk, qExtRefs);
    forall d | d in Reconcile.NewStaff(chunk, qExtRefs)
      ensures IsStaffRow(d) && CreateOutcomeOf(d, replies) != Skipped
    {
      var i :| 0 <= i < |chunk| && Reconcile.NeedsCreate(chunk[i], qExtRefs) && d == Reconcile.StaffDetails(chunk[i]);
    }
  }

  /** A create answered by a gateway timeout, NOT found by a first failed
      search although a retried search finds it, is sent again: a second
      "200" counts it once more. */
  lemma DiscardedCheckCreatesAgain()
    ensures CreateRun([CreateReply("504 - Gateway Timeout", [Search("500 - Internal Server Error", 0), Search("200 - OK", 1)]),
                       CreateReply("200 - OK", [])]) == Imported
  {
  }

  /** A gateway timeout after which the first search finds the contact ends
      the run without counting it. */
  lemma TimeoutFoundNotCounted(staffDetails: seq<Value>, later: seq<CreateReply>)
    requires IsStaffRow(staffDetails) && ExtRef(staffDetails) != ""
    ensures CreateOutcomeOf(staffDetails, [CreateReply("504 - Gateway Timeout", [Search("200 - OK", 1)])] + later) == AlreadyExists
  {
    assert StatusCode("504 - Gateway Timeout") == "504";
    assert StatusCode("200 - OK") == "200";
    var replies := [CreateReply("504 - Gateway Timeout", [Search("200 - OK", 1)])] + later;
    assert replies[0] == CreateReply("504 - Gateway Timeout", [Search("200 - OK", 1)]);
  }

  /** Number of counted outcomes. */
  function CountImported(outcomes: seq<CreateOutcome>): (n: nat)
    ensures n <= |outcomes|
    decreases |outcomes|
  {
    if outcomes == [] then 0
    else CountImported(outcomes[..|outcomes| - 1]) + if outcomes[|outcomes| - 1] == Imported then 1 else 0
  }

  /** When every record is imported, the count is the number of records. */
  lemma {:induction false} CountAllImported(outcomes: seq<CreateOutcome>)
    requires forall i :: 0 <= i < |outcomes| ==> outcomes[i] == Imported
    ensures CountImported(outcomes) == |outcomes|
    decreases |outcomes|
  {
    if outcomes != [] {
      CountAllImported(outcomes[..|outcomes| - 1]);
    }
  }

  /** The import counter `totalImported` shared by all create calls. */
  class Importer {
    var totalImported: nat

    constructor ()
      ensures totalImported == 0
    {
      totalImported := 0;
    }

    /** createContact: each reply is taken in turn until one ends the run;
        the counter rises by one exactly when the run ends on a "200". */
    method CreateContact(staffDetails: seq<Value>, replies: seq<CreateReply>) returns (outcome: CreateOutcome)
      requires IsStaffRow(staffDetails)
      modifies this
      ensures outcome == CreateOutcomeOf(staffDetails, replies)
      ensures totalImported == old(totalImported) + if outcome == Imported then 1 else 0
    {
      if Str(staffDetails[7]) == "" {
        return Skipped;
      }
      var i := 0;
      while i < |replies|
        invariant 0 <= i <= |replies|
        invariant CreateRun(replies[i..]) == CreateRun(replies)
        invariant totalImported == old(totalImported)
      {
        assert replies[i..][1..] == replies[i + 1..];
        var responseCode := StatusCode(replies[i].status);
        if responseCode == "200" {
          totalImported := totalImported + 1;
          return Imported;
        }
        if responseCode == "504" {
          var checkExistingContact := GetContact(replies[i].searches);
          if checkExistingContact == Hangs {
            return Unfinished;
          }
          if checkExistingContact == Answered(true) {
            return AlreadyExists;
          }
        }
        i := i + 1;
      }
      return Unfinished;
    }

    /** loopThroughChunk: one createContact per record of the chunk, each
        with its own scripted replies, the next record only once the call
        for the current one has returned. A run that never ends (it keeps
        retrying) is the last one: the records after it are never sent. The
        counter rises by the number of counted outcomes. */
    method LoopThroughChunk(chunk: seq<seq<Value>>, scripts: seq<seq<CreateReply>>) returns (outcomes: seq<CreateOutcome>)
      requires StaffRows(chunk) && |scripts| == |chunk|
      modifies this
      ensures |outcomes| <= |chunk|
      ensures forall i :: 0 <= i < |outcomes| ==> outcomes[i] == CreateOutcomeOf(chunk[i], scripts[i])
      ensures forall i :: 0 <= i < |outcomes| - 1 ==> outcomes[i] != Unfinished
      ensures |outcomes| < |chunk| ==> |outcomes| > 0 && outcomes[|outcomes| - 1] == Unfinished
      ensures totalImported == old(totalImported) + CountImported(outcomes)
    {
      outcomes := [];
      for i := 0 to |chunk|
        invariant |outcomes| == i
        invariant forall k :: 0 <= k < i ==> outcomes[k] == CreateOutcomeOf(chunk[k], scripts[k])
        invariant forall k :: 0 <= k < i ==> outcomes[k] != Unfinished
        invariant totalImported == old(totalImported) + CountImported(outcomes)
      {
        var outcome := CreateContact(chunk[i], scripts[i]);
        assert (outcomes + [outcome])[..i] == outcomes;
        outcomes := outcomes + [outcome];
        if outcome == Unfinished {
          return;
        }
      }
    }
  }

  /** A record whose create keeps failing holds up the rest of its chunk:
      the next record is never sent, and nothing is counted. */
  method StuckRecordBlocksChunk() returns (outcomes: seq<CreateOutcome>, total: nat)
    ensures outcomes == [Unfinished] && total == 0
  {
    var importer := new Importer();
    var first := [Text("Teacher"), Text("Doe"), Text("Jane"), Text("Central"), Text("jane@example.org"),
                  Text("Teacher"), Text("555-0100"), Int(1042)];
    var second := [Text("Clerk"), Text("Roe"), Text("Rich"), Text("North"), Text("rich@example.org"),
                   Text("Clerk"), Text("555-0101"), Int(1043)];
    assert StatusCode("500 - Internal Server Error") == "500";
    assert StatusCode("200 - OK") == "200";
    assert ExtRef(first) != "";
    var stuck := [CreateReply("500 - Internal Server Error", [])];
    assert CreateRun(stuck) == Unfinished by {
      assert stuck[1..] == [];
    }
    outcomes := importer.LoopThroughChunk([first, second], [stuck, [CreateReply("200 - OK", [])]]);
    total := importer.totalImported;
  }

  /** Two failures and then a success import the record once: the counter
      rises by exactly one. */
  method TwoFailuresThenSuccess() returns (total: nat)
    ensures total == 1
  {
    var importer := new Importer();
    var staff := [Text("Teacher"), Text("Doe"), Text("Jane"), Text("Central"), Text("jane@example.org"),
                  Text("Teacher"), Text("555-0100"), Int(1042)];
    var replies := [CreateReply("500 - Internal Server Error", []), CreateReply("503 - Service Unavailable", []),
                    CreateReply("200 - OK", [])];
    assert replies[1..][1..] == [CreateReply("200 - OK", [])];
    assert StatusCode("500 - Internal Server Error") == "500";
    assert StatusCode("503 - Service Unavailable") == "503";
    assert StatusCode("200 - OK") == "200";
    assert ExtRef(staff) != "";
    var outcome := importer.CreateContact(staff, replies);
    total := importer.totalImported;
  }
}
