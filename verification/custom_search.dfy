/** The class-based Custom Search provider: a pool of API keys, each with a
    daily request budget, and a manager that searches with the first key
    still active. */
module CustomSearch {
  import opened Results
  import opened SocialNetworks
  import opened Backends

  /** Requests a key may make before it is switched off. */
  const DailyLimit := 100

  /** `CSEKey`: the API key, the requests made with it, and whether it may
      still be used. */
  datatype CseKey = CseKey(token: string, numRequests: nat, isActive: bool)

  /** A key that is active has not gone over its daily budget. */
  predicate KeyInv(k: CseKey) {
    k.isActive ==> k.numRequests <= DailyLimit
  }

  predicate AllKeysInv(keys: seq<CseKey>) {
    forall i | 0 <= i < |keys| :: KeyInv(keys[i])
  }

  /** `CSEKey.__init__`. */
  function NewKey(token: string): (k: CseKey)
    ensures k.token == token && k.numRequests == 0 && k.isActive
    ensures KeyInv(k)
  {
    CseKey(token, 0, true)
  }

  /** `increment_requests`: one more request; a key that goes over the
      budget is switched off and stays off. */
  function IncrementRequests(k: CseKey): (r: CseKey)
    ensures r.token == k.token
    ensures r.numRequests == k.numRequests + 1
    ensures r.isActive <==> k.isActive && r.numRequests <= DailyLimit
    ensures KeyInv(r)
  {
    var n := k.numRequests + 1;
    CseKey(k.token, n, k.isActive && !(n > DailyLimit))
  }

  /** `m` requests in a row on one key. */
  function Increments(k: CseKey, m: nat): CseKey
    decreases m
  {
    if m == 0 then k else Increments(IncrementRequests(k), m - 1)
  }

  /** After `m` requests a key has counted all of them, and it is still
      active exactly when it was and the total stays within the budget. */
  lemma {:induction false} IncrementsSpec(k: CseKey, m: nat)
    ensures Increments(k, m).token == k.token
    ensures Increments(k, m).numRequests == k.numRequests + m
    ensures m > 0 ==> (Increments(k, m).isActive <==> k.isActive && k.numRequests + m <= DailyLimit)
    decreases m
  {
    if m > 0 {
      IncrementsSpec(IncrementRequests(k), m - 1);
    }
  }

  /** A fresh key serves exactly `DailyLimit` requests and is switched off
      by the next one. */
  lemma FreshKeyLifetime(token: string, m: nat)
    ensures Increments(NewKey(token), m).isActive <==> m <= DailyLimit
  {
    IncrementsSpec(NewKey(token), m);
  }

  /** `CSEManager`. */
  datatype Manager = Manager(keys: seq<CseKey>, successSearches: nat, allKeysOff: bool, cseId: string)

  /** `CSEManager.__init__`: one fresh key per token, no success yet. */
  function NewManager(tokens: seq<string>, cseId: string): (m: Manager)
    ensures |m.keys| == |tokens|
    ensures forall i | 0 <= i < |tokens| :: m.keys[i] == NewKey(tokens[i])
    ensures m.successSearches == 0 && !m.allKeysOff && m.cseId == cseId
    ensures AllKeysInv(m.keys)
  {
    Manager(seq(|tokens|, i requires 0 <= i < |tokens| => NewKey(tokens[i])), 0, false, cseId)
  }

  /** `get_active_key`: the first active key in pool order. */
  function GetActiveKey(keys: seq<CseKey>): (r: Option<nat>)
    ensures r.Some? ==> r.value < |keys| && keys[r.value].isActive
    ensures r.Some? ==> forall j | 0 <= j < r.value :: !keys[j].isActive
    ensures r.None? <==> forall j | 0 <= j < |keys| :: !keys[j].isActive
  {
    FirstWhere(keys, (k: CseKey) => k.isActive)
  }

  /** The back-end is asked with the key's token and the query. */
  type CseBackend = (string, string) -> Response

  /** `search_post`: take the first active key, count the request on it,
      and ask the back-end once. The first hit the validator accepts is the
      answer; a 429 switches the key off; any other outcome gives `""`.
      Every path ends after one request, so another key is never tried in
      the same call. */
  function SearchPost(m: Manager, postText: string, username: string, n: Network,
                      valid: Validator, backend: CseBackend): (r: Searched<Manager>)
    ensures |r.state.keys| == |m.keys| && r.state.cseId == m.cseId
    ensures forall j | 0 <= j < |m.keys| :: r.state.keys[j].token == m.keys[j].token
    ensures forall j | 0 <= j < |m.keys| :: !m.keys[j].isActive ==> !r.state.keys[j].isActive
    ensures AllKeysInv(m.keys) ==> AllKeysInv(r.state.keys)
    ensures m.allKeysOff ==> r.state.allKeysOff
  {
    match GetActiveKey(m.keys)
    case None =>
      Searched(m.(allKeysOff := true), "")
    case Some(i) =>
      var counted := m.keys[i := IncrementRequests(m.keys[i])];
      match backend(m.keys[i].token, Query(n, postText, username))
      case Success(items) =>
        (match FirstValid(items, valid, postText)
         case Some(j) =>
           Searched(m.(keys := counted, successSearches := m.successSearches + 1), items[j].link)
         case None =>
           Searched(m.(keys := counted), ""))
      case HttpError(status) =>
        if status == TooManyRequests then
          Searched(m.(keys := counted[i := counted[i].(isActive := false)]), "")
        else
          Searched(m.(keys := counted), "")
  }

  /** With no active key the call returns `""`, latches `all_keys_off` and
      changes nothing else. */
  lemma NoActiveKey(m: Manager, postText: string, username: string, n: Network,
                    valid: Validator, backend: CseBackend)
    requires forall j | 0 <= j < |m.keys| :: !m.keys[j].isActive
    ensures SearchPost(m, postText, username, n, valid, backend) == Searched(m.(allKeysOff := true), "")
  {
  }

  /** With an active key, exactly the first active key is charged one
      request, before the request is made and whatever it returns; the
      other keys are untouched, and the flag is left alone. */
  lemma ChargesFirstActiveKey(m: Manager, postText: string, username: string, n: Network,
                              valid: Validator, backend: CseBackend, i: nat)
    requires i < |m.keys| && m.keys[i].isActive
    requires forall j | 0 <= j < i :: !m.keys[j].isActive
    ensures var r := SearchPost(m, postText, username, n, valid, backend).state;
      && r.keys[i].numRequests == m.keys[i].numRequests + 1
      && (forall j | 0 <= j < |m.keys| && j != i :: r.keys[j] == m.keys[j])
      && r.allKeysOff == m.allKeysOff
  {
    assert GetActiveKey(m.keys) == Some(i);
    var counted := m.keys[i := IncrementRequests(m.keys[i])];
    var r := SearchPost(m, postText, username, n, valid, backend).state;
    if Answer(m, i, postText, username, n, backend).Success? {
      assert r.keys == counted;
    } else {
      assert r.keys == counted || r.keys == counted[i := counted[i].(isActive := false)];
    }
  }

  /** The answer of the back-end for the key a call uses. */
  function Answer(m: Manager, i: nat, postText: string, username: string, n: Network,
                  backend: CseBackend): Response
    requires i < |m.keys|
  {
    backend(m.keys[i].token, Query(n, postText, username))
  }

  /** A 429 switches the charged key off and the call returns `""`; any
      other error returns `""` and leaves the key as the charge left it. */
  lemma ErrorOutcomes(m: Manager, postText: string, username: string, n: Network,
                      valid: Validator, backend: CseBackend, i: nat)
    requires GetActiveKey(m.keys) == Some(i)
    requires Answer(m, i, postText, username, n, backend).HttpError?
    ensures var r := SearchPost(m, postText, username, n, valid, backend);
      && r.url == ""
      && r.state.successSearches == m.successSearches
      && (r.state.keys[i].isActive <==>
            Answer(m, i, postText, username, n, backend).status != TooManyRequests
            && m.keys[i].numRequests + 1 <= DailyLimit)
  {
  }

  /** A successful answer yields its first accepted hit, counted as a
      success; with no accepted hit the call returns `""` and counts
      nothing. */
  lemma SuccessOutcome(m: Manager, postText: string, username: string, n: Network,
                       valid: Validator, backend: CseBackend, i: nat)
    requires GetActiveKey(m.keys) == Some(i)
    requires Answer(m, i, postText, username, n, backend).Success?
    ensures var items := Answer(m, i, postText, username, n, backend).items;
      var r := SearchPost(m, postText, username, n, valid, backend);
      match FirstValid(items, valid, postText)
      case Some(j) => r.url == items[j].link && r.state.successSearches == m.successSearches + 1
      case None => r.url == "" && r.state.successSearches == m.successSearches
  {
  }

  /** With a validator that rejects empty links, `success_searches` grows by
      one exactly when a non-empty link is returned, and otherwise stays. */
  lemma SuccessCountsFoundLinks(m: Manager, postText: string, username: string, n: Network,
                                valid: Validator, backend: CseBackend)
    requires RejectsEmpty(valid)
    ensures var r := SearchPost(m, postText, username, n, valid, backend);
      && (r.url != "" <==> r.state.successSearches == m.successSearches + 1)
      && (r.url == "" <==> r.state.successSearches == m.successSearches)
  {
    match GetActiveKey(m.keys)
    case None =>
    case Some(i) =>
      match Answer(m, i, postText, username, n, backend)
      case Success(items) =>
        if FirstValid(items, valid, postText).Some? {
          FirstValidNotEmpty(items, valid, postText);
        }
      case HttpError(_) =>
  }

  /** The requests counted over the whole pool. */
  function TotalRequests(keys: seq<CseKey>): nat
    decreases |keys|
  {
    if keys == [] then 0 else keys[0].numRequests + TotalRequests(keys[1..])
  }

  /** Changing one key's count by `d` changes the pool total by `d`. */
  lemma {:induction false} TotalRequestsUpdate(keys: seq<CseKey>, i: nat, k: CseKey)
    requires i < |keys|
    ensures TotalRequests(keys[i := k]) == TotalRequests(keys) - keys[i].numRequests + k.numRequests
    decreases |keys|
  {
    if i > 0 {
      assert keys[i := k][1..] == keys[1..][i - 1 := k];
      TotalRequestsUpdate(keys[1..], i - 1, k);
    }
  }

  /** One call adds at most one request to the pool: exactly one when a key
      was active, none otherwise. */
  lemma OneRequestPerCall(m: Manager, postText: string, username: string, n: Network,
                          valid: Validator, backend: CseBackend)
    ensures var r := SearchPost(m, postText, username, n, valid, backend).state;
      TotalRequests(r.keys) == TotalRequests(m.keys) + (if GetActiveKey(m.keys).Some? then 1 else 0)
  {
    match GetActiveKey(m.keys)
    case None =>
    case Some(i) =>
      var counted := m.keys[i := IncrementRequests(m.keys[i])];
      TotalRequestsUpdate(m.keys, i, IncrementRequests(m.keys[i]));
      TotalRequestsUpdate(counted, i, counted[i].(isActive := false));
  }
}
