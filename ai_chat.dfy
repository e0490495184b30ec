/** The keyword responder of backend/src/ai-chat/ai-chat.service.ts: the first
    knowledge-base rule, oldest first, one of whose keywords occurs in the
    lower-cased query answers it; a navigation suggestion is resolved against the
    service catalogue. Loading the rules and looking up the service are the two
    calls that can throw; their failures are parameters. */
module AiChat {
  import opened Common
  import opened Seqs
  import opened Text

  /** A row of the knowledge base (backend/src/ai-chat/ai-knowledge-base.entity.ts).
      `createdAt` is the creation instant in minutes. */
  datatype KnowledgeEntry = KnowledgeEntry(
    id: string,
    keywords: Option<seq<string>>,
    responseText: string,
    actionType: Option<string>,
    actionValue: Option<string>,
    createdAt: int)

  /** The service fields copied into `suggestedActionDetails`. */
  datatype ServiceDetails = ServiceDetails(
    id: string,
    name: string,
    description: Option<string>,
    departmentId: string,
    durationMinutes: nat,
    category: Option<string>)

  datatype ChatResponse = ChatResponse(
    responseText: string,
    actionType: Option<string>,
    actionValue: Option<string>,
    details: Option<ServiceDetails>)

  const NavigateToService := "NAVIGATE_TO_SERVICE"

  const FallbackText :=
    "I'm sorry, I can only assist with predefined government service queries. Please try rephrasing or ask about a specific service like 'passport' or 'driving license renewal'."

  const ApologyText :=
    "I apologize, I'm currently experiencing technical difficulties and cannot process your request."

  function CreatedAt(e: KnowledgeEntry): int
  {
    e.createdAt
  }

  /** The keyword test: the entry has a keyword list and some keyword, lower-cased,
      occurs in the (already lower-cased) query. */
  predicate Matches(e: KnowledgeEntry, lowerQuery: string)
  {
    e.keywords.Some? && exists k :: k in e.keywords.value && Includes(lowerQuery, Lower(k))
  }

  function MatchesQuery(lowerQuery: string): KnowledgeEntry -> bool
  {
    e => Matches(e, lowerQuery)
  }

  function DetailsOf(s: Service): ServiceDetails
  {
    ServiceDetails(s.id, s.name, s.description, s.departmentId, s.durationMinutes, s.category)
  }

  /** A truthy `suggested_action_value`. */
  predicate HasValue(e: KnowledgeEntry)
  {
    e.actionValue.Some? && e.actionValue.value != ""
  }

  /** The answer built from a matched rule. */
  function Answer(e: KnowledgeEntry, catalog: map<string, Service>, lookupFails: bool): ChatResponse
  {
    if e.actionType == Some(NavigateToService) && HasValue(e) then
      if lookupFails || e.actionValue.value !in catalog then ChatResponse(e.responseText, None, None, None)
      else ChatResponse(e.responseText, e.actionType, e.actionValue,
                        Some(DetailsOf(catalog[e.actionValue.value])))
    else ChatResponse(e.responseText, e.actionType, e.actionValue, None)
  }

  /** The reference definition of `getResponse`. `entries` is None when loading the
      rules fails. */
  function Respond(query: string, entries: Option<seq<KnowledgeEntry>>,
                   catalog: map<string, Service>, lookupFails: bool): ChatResponse
  {
    match entries
    case None => ChatResponse(ApologyText, None, None, None)
    case Some(rows) =>
      var rules := SortBy(rows, CreatedAt);
      var k := FirstIndex(rules, MatchesQuery(Lower(query)));
      if k == |rules| then ChatResponse(FallbackText, None, None, None)
      else Answer(rules[k], catalog, lookupFails)
  }

  /** The loop of `getResponse`: the position of the first rule whose keywords
      match, or the length of the list when none does. */
  method FindFirstMatch(rules: seq<KnowledgeEntry>, lowerQuery: string) returns (i: nat)
    ensures i == FirstIndex(rules, MatchesQuery(lowerQuery))
  {
    i := 0;
    while i < |rules|
      invariant i <= |rules|
      invariant forall j :: 0 <= j < i ==> !Matches(rules[j], lowerQuery)
    {
      if Matches(rules[i], lowerQuery) {
        break;
      }
      i := i + 1;
    }
    FirstIndexIs(rules, MatchesQuery(lowerQuery), i);
  }

  /** The response built from the matched rule, with its action fields cleared
      when the service cannot be resolved. */
  method BuildResponse(e: KnowledgeEntry, catalog: map<string, Service>, lookupFails: bool)
    returns (response: ChatResponse)
    ensures response == Answer(e, catalog, lookupFails)
  {
    response := ChatResponse(e.responseText, e.actionType, e.actionValue, None);
    if e.actionType == Some(NavigateToService) && HasValue(e) {
      if !lookupFails && e.actionValue.value in catalog {
        response := response.(details := Some(DetailsOf(catalog[e.actionValue.value])));
      } else {
        response := response.(actionType := None, actionValue := None, details := None);
      }
    }
  }

  /** `getResponse`: the first matching rule in creation order answers; no match
      gives the fallback and a failure to load the rules the apology. */
  method GetResponse(query: string, entries: Option<seq<KnowledgeEntry>>,
                     catalog: map<string, Service>, lookupFails: bool)
    returns (response: ChatResponse)
    ensures response == Respond(query, entries, catalog, lookupFails)
  {
    var lowerCaseQuery := Lower(query);
    if entries.None? {
      return ChatResponse(ApologyText, None, None, None);
    }
    var knowledgeBaseEntries := SortBy(entries.value, CreatedAt);
    var i := FindFirstMatch(knowledgeBaseEntries, lowerCaseQuery);
    if i == |knowledgeBaseEntries| {
      return ChatResponse(FallbackText, None, None, None);
    }
    response := BuildResponse(knowledgeBaseEntries[i], catalog, lookupFails);
  }

  /** The rule that answers is the first matching one in creation order: any
      matching rule at position k of the ordered list, with no match before it,
      gives the answer. */
  lemma FirstMatchAnswers(query: string, rows: seq<KnowledgeEntry>, catalog: map<string, Service>,
                          lookupFails: bool, k: nat)
    requires k < |SortBy(rows, CreatedAt)|
    requires Matches(SortBy(rows, CreatedAt)[k], Lower(query))
    requires forall j :: 0 <= j < k ==> !Matches(SortBy(rows, CreatedAt)[j], Lower(query))
    ensures Respond(query, Some(rows), catalog, lookupFails)
         == Answer(SortBy(rows, CreatedAt)[k], catalog, lookupFails)
  {
    var rules := SortBy(rows, CreatedAt);
    var p := MatchesQuery(Lower(query));
    forall j | 0 <= j < k ensures !p(rules[j]) {
    }
    FirstIndexIs(rules, p, k);
  }

  /** With no matching rule the answer is the fallback text and nothing else. */
  lemma NoMatchFallsBack(query: string, rows: seq<KnowledgeEntry>, catalog: map<string, Service>,
                         lookupFails: bool)
    requires forall e :: e in rows ==> !Matches(e, Lower(query))
    ensures Respond(query, Some(rows), catalog, lookupFails) == ChatResponse(FallbackText, None, None, None)
  {
    var rules := SortBy(rows, CreatedAt);
    var p := MatchesQuery(Lower(query));
    forall j | 0 <= j < |rules| ensures !p(rules[j]) {
      assert rules[j] in rows;
    }
    FirstIndexIs(rules, p, |rules|);
  }

  /** A rule without keywords, or with an empty list, never matches. */
  lemma EmptyKeywordsNeverMatch(e: KnowledgeEntry, lowerQuery: string)
    requires e.keywords == None || e.keywords == Some([])
    ensures !Matches(e, lowerQuery)
  {
  }

  /** A rule holding the empty keyword matches every query. */
  lemma EmptyKeywordMatchesEverything(e: KnowledgeEntry, query: string)
    requires e.keywords.Some? && "" in e.keywords.value
    ensures Matches(e, Lower(query))
  {
    IncludesEmpty(Lower(query));
    assert Lower("") == "";
  }

  /** Matching ignores case: queries equal up to case get the same answer. */
  lemma CaseInsensitive(q1: string, q2: string, entries: Option<seq<KnowledgeEntry>>,
                        catalog: map<string, Service>, lookupFails: bool)
    requires Lower(q1) == Lower(q2)
    ensures Respond(q1, entries, catalog, lookupFails) == Respond(q2, entries, catalog, lookupFails)
  {
  }

  /** A matched rule's text is always kept; its action is copied unchanged unless
      it is a navigation, which either gains all six detail fields of the service
      or, when the service is missing or its lookup throws, loses its type, value
      and details. */
  lemma AnswerShape(e: KnowledgeEntry, catalog: map<string, Service>, lookupFails: bool)
    ensures Answer(e, catalog, lookupFails).responseText == e.responseText
    ensures !(e.actionType == Some(NavigateToService) && HasValue(e)) ==>
              Answer(e, catalog, lookupFails) == ChatResponse(e.responseText, e.actionType, e.actionValue, None)
    ensures e.actionType == Some(NavigateToService) && HasValue(e) ==>
              (Answer(e, catalog, lookupFails).details.Some?
               <==> !lookupFails && e.actionValue.value in catalog)
    ensures e.actionType == Some(NavigateToService) && HasValue(e)
            && (lookupFails || e.actionValue.value !in catalog) ==>
              Answer(e, catalog, lookupFails) == ChatResponse(e.responseText, None, None, None)
    ensures e.actionType == Some(NavigateToService) && HasValue(e) && !lookupFails
            && e.actionValue.value in catalog ==>
              var s := catalog[e.actionValue.value];
              var r := Answer(e, catalog, lookupFails);
              && r.actionType == Some(NavigateToService)
              && r.actionValue == e.actionValue
              && r.details.Some?
              && r.details.value.id == s.id
              && r.details.value.name == s.name
              && r.details.value.description == s.description
              && r.details.value.departmentId == s.departmentId
              && r.details.value.durationMinutes == s.durationMinutes
              && r.details.value.category == s.category
  {
  }

  /** A failure loading the rules is answered with the apology, never thrown. */
  lemma LoadFailureApologises(query: string, catalog: map<string, Service>, lookupFails: bool)
    ensures Respond(query, None, catalog, lookupFails) == ChatResponse(ApologyText, None, None, None)
  {
  }
}
