/**
 * Choosing one assignee among the users who asked for an issue: the
 * requests are gathered into a dictionary keyed by login (a later request by
 * the same user overwrites the stored time but keeps the key's position),
 * the entries are stably sorted by (most comments first, earliest stored
 * request time first), and the head of the sorted list wins.
 */
module Ranking {
  import opened Wrappers

  /** One assignment request: the requesting login and the request comment's creation time. */
  datatype Request = Request(user: string, time: int)

  /** One dictionary entry: a login and the request time stored for it. */
  datatype Candidate = Candidate(user: string, time: int)

  /** Comment count of each login on the issue. */
  type Counts = string -> int

  predicate Requested(reqs: seq<Request>, u: string) {
    exists i :: 0 <= i < |reqs| && reqs[i].user == u
  }

  /** Index of the first request by `u` (see `FirstRequestIsFirst`). */
  function FirstRequest(reqs: seq<Request>, u: string): (r: nat)
    requires Requested(reqs, u)
    ensures r < |reqs| && reqs[r].user == u
  {
    var pre := reqs[..|reqs| - 1];
    if Requested(pre, u) then
      var r := FirstRequest(pre, u);
      assert reqs[r] == pre[r];
      r
    else
      |reqs| - 1
  }

  lemma {:induction false} FirstRequestIsFirst(reqs: seq<Request>, u: string)
    requires Requested(reqs, u)
    ensures forall i :: 0 <= i < FirstRequest(reqs, u) ==> reqs[i].user != u
  {
    var pre := reqs[..|reqs| - 1];
    if Requested(pre, u) {
      FirstRequestIsFirst(pre, u);
      assert forall i :: 0 <= i < |pre| ==> reqs[i] == pre[i];
    } else {
      assert forall i :: 0 <= i < |pre| ==> reqs[i] == pre[i];
    }
  }

  /** Creation time of the last request by `u` (see `LastRequestTimeIsLast`). */
  function LastRequestTime(reqs: seq<Request>, u: string): (t: int)
    requires Requested(reqs, u)
  {
    var last := reqs[|reqs| - 1];
    if last.user == u then
      last.time
    else
      var pre := reqs[..|reqs| - 1];
      assert Requested(pre, u) by {
        var i :| 0 <= i < |reqs| && reqs[i].user == u;
        assert pre[i] == reqs[i];
      }
      LastRequestTime(pre, u)
  }

  /** No request after index `i` is by `u`. */
  predicate NoneAfter(reqs: seq<Request>, u: string, i: nat) {
    forall j :: i < j < |reqs| ==> reqs[j].user != u
  }

  lemma {:induction false} LastRequestTimeIsLast(reqs: seq<Request>, u: string)
    requires Requested(reqs, u)
    ensures exists i :: 0 <= i < |reqs| && reqs[i] == Request(u, LastRequestTime(reqs, u)) && NoneAfter(reqs, u, i)
  {
    var last := reqs[|reqs| - 1];
    if last.user != u {
      var pre := reqs[..|reqs| - 1];
      assert Requested(pre, u) by {
        var i :| 0 <= i < |reqs| && reqs[i].user == u;
        assert pre[i] == reqs[i];
      }
      LastRequestTimeIsLast(pre, u);
      var i :| 0 <= i < |pre| && pre[i] == Request(u, LastRequestTime(pre, u)) && NoneAfter(pre, u, i);
      assert reqs[i] == pre[i];
      assert forall j :: i < j < |reqs| ==> reqs[j].user != u by {
        assert forall j :: i < j < |pre| ==> reqs[j] == pre[j];
      }
    } else {
      assert reqs[|reqs| - 1] == Request(u, LastRequestTime(reqs, u));
    }
  }

  predicate DistinctUsers(cs: seq<Candidate>) {
    forall a, b :: 0 <= a < b < |cs| ==> cs[a].user != cs[b].user
  }

  function FindUser(cs: seq<Candidate>, u: string): (r: Option<nat>)
    ensures r.Some? ==> r.value < |cs| && cs[r.value].user == u
    ensures r.None? ==> forall k :: 0 <= k < |cs| ==> cs[k].user != u
  {
    if |cs| == 0 then None
    else if cs[0].user == u then Some(0)
    else match FindUser(cs[1..], u)
      case Some(k) => Some(k + 1)
      case None => None
  }

  /** `d[r.user] = r.time` on an insertion-ordered dictionary. */
  function Store(cs: seq<Candidate>, r: Request): seq<Candidate>
  {
    match FindUser(cs, r.user)
    case Some(k) => cs[k := Candidate(r.user, r.time)]
    case None => cs + [Candidate(r.user, r.time)]
  }

  /** Every entry belongs to a user who asked. */
  predicate AllRequested(cs: seq<Candidate>, reqs: seq<Request>) {
    forall k :: 0 <= k < |cs| ==> Requested(reqs, cs[k].user)
  }

  /** Every entry holds its user's last request time. */
  predicate HoldsLastTimes(cs: seq<Candidate>, reqs: seq<Request>)
    requires AllRequested(cs, reqs)
  {
    forall k :: 0 <= k < |cs| ==> cs[k].time == LastRequestTime(reqs, cs[k].user)
  }

  /** Every requesting user has an entry. */
  predicate CoversRequests(cs: seq<Candidate>, reqs: seq<Request>) {
    forall i :: 0 <= i < |reqs| ==> exists k :: 0 <= k < |cs| && cs[k].user == reqs[i].user
  }

  /** Entries are in the order of their users' first requests. */
  predicate InFirstRequestOrder(cs: seq<Candidate>, reqs: seq<Request>)
    requires AllRequested(cs, reqs)
  {
    forall a, b :: 0 <= a < b < |cs| ==> FirstRequest(reqs, cs[a].user) < FirstRequest(reqs, cs[b].user)
  }

  /**
   * `cs` is the candidate dictionary of `reqs`: one entry per requesting user,
   * in order of each user's first request, holding that user's last request time.
   */
  predicate IsDictionaryOf(cs: seq<Candidate>, reqs: seq<Request>) {
    && DistinctUsers(cs)
    && AllRequested(cs, reqs)
    && HoldsLastTimes(cs, reqs)
    && CoversRequests(cs, reqs)
    && InFirstRequestOrder(cs, reqs)
  }

  /** The dictionary the source's loop over the requests builds. */
  function Tally(reqs: seq<Request>): seq<Candidate>
  {
    if |reqs| == 0 then []
    else Store(Tally(reqs[..|reqs| - 1]), reqs[|reqs| - 1])
  }

  lemma {:induction false} TallyIsDictionary(reqs: seq<Request>)
    ensures IsDictionaryOf(Tally(reqs), reqs)
  {
    if |reqs| > 0 {
      var pre := reqs[..|reqs| - 1];
      var r := reqs[|reqs| - 1];
      assert pre + [r] == reqs;
      TallyIsDictionary(pre);
      if FindUser(Tally(pre), r.user).Some? {
        StoreExisting(pre, r, Tally(pre));
      } else {
        StoreNew(pre, r, Tally(pre));
      }
    }
  }

  lemma RequestedExtends(pre: seq<Request>, r: Request, u: string)
    requires Requested(pre, u)
    ensures Requested(pre + [r], u)
  {
    var i :| 0 <= i < |pre| && pre[i].user == u;
    assert (pre + [r])[i] == pre[i];
  }

  /** How one user's first-request index and last-request time change when a request is appended. */
  lemma AppendUser(pre: seq<Request>, r: Request, u: string)
    requires Requested(pre + [r], u)
    ensures Requested(pre, u) || u == r.user
    ensures Requested(pre, u) ==> FirstRequest(pre + [r], u) == FirstRequest(pre, u)
    ensures !Requested(pre, u) ==> FirstRequest(pre + [r], u) == |pre|
    ensures LastRequestTime(pre + [r], u) == if u == r.user then r.time else LastRequestTime(pre, u)
  {
    var reqs := pre + [r];
    assert reqs[..|reqs| - 1] == pre;
    var i :| 0 <= i < |reqs| && reqs[i].user == u;
    if i < |pre| {
      assert pre[i] == reqs[i];
    }
  }

  lemma StoreExisting(pre: seq<Request>, r: Request, prev: seq<Candidate>)
    requires IsDictionaryOf(prev, pre)
    requires FindUser(prev, r.user).Some?
    ensures IsDictionaryOf(Store(prev, r), pre + [r])
  {
    StoreExistingUsers(pre, r, prev);
    StoreExistingTimes(pre, r, prev);
    StoreExistingCovers(pre, r, prev);
  }

  /** Overwriting an entry keeps every entry's user, so distinctness and order carry over. */
  lemma StoreExistingUsers(pre: seq<Request>, r: Request, prev: seq<Candidate>)
    requires IsDictionaryOf(prev, pre)
    requires FindUser(prev, r.user).Some?
    ensures DistinctUsers(Store(prev, r))
    ensures AllRequested(Store(prev, r), pre + [r])
    ensures InFirstRequestOrder(Store(prev, r), pre + [r])
  {
    var reqs := pre + [r];
    var cs := Store(prev, r);
    assert |cs| == |prev|;
    assert forall x :: 0 <= x < |cs| ==> cs[x].user == prev[x].user;
    forall x | 0 <= x < |cs|
      ensures Requested(reqs, cs[x].user)
      ensures FirstRequest(reqs, cs[x].user) == FirstRequest(pre, prev[x].user)
    {
      RequestedExtends(pre, r, prev[x].user);
      AppendUser(pre, r, prev[x].user);
    }
    forall a, b | 0 <= a < b < |cs|
      ensures FirstRequest(reqs, cs[a].user) < FirstRequest(reqs, cs[b].user)
    {
      assert FirstRequest(pre, prev[a].user) < FirstRequest(pre, prev[b].user);
    }
  }

  lemma StoreExistingTimes(pre: seq<Request>, r: Request, prev: seq<Candidate>)
    requires IsDictionaryOf(prev, pre)
    requires FindUser(prev, r.user).Some?
    ensures AllRequested(Store(prev, r), pre + [r])
    ensures HoldsLastTimes(Store(prev, r), pre + [r])
  {
    var reqs := pre + [r];
    var cs := Store(prev, r);
    var k := FindUser(prev, r.user).value;
    assert |cs| == |prev|;
    forall x | 0 <= x < |cs|
      ensures Requested(reqs, cs[x].user)
      ensures cs[x].time == LastRequestTime(reqs, cs[x].user)
    {
      assert cs[x].user == prev[x].user;
      RequestedExtends(pre, r, prev[x].user);
      AppendUser(pre, r, prev[x].user);
      if x != k {
        assert cs[x] == prev[x];
        assert prev[x].user != r.user;
      }
    }
  }

  lemma StoreExistingCovers(pre: seq<Request>, r: Request, prev: seq<Candidate>)
    requires CoversRequests(prev, pre)
    requires FindUser(prev, r.user).Some?
    ensures CoversRequests(Store(prev, r), pre + [r])
  {
    var reqs := pre + [r];
    var cs := Store(prev, r);
    var k := FindUser(prev, r.user).value;
    assert |cs| == |prev|;
    assert forall x :: 0 <= x < |cs| ==> cs[x].user == prev[x].user;
    forall i | 0 <= i < |reqs|
      ensures exists x :: 0 <= x < |cs| && cs[x].user == reqs[i].user
    {
      if i < |pre| {
        assert reqs[i] == pre[i];
        var x :| 0 <= x < |prev| && prev[x].user == pre[i].user;
        assert cs[x].user == reqs[i].user;
      } else {
        assert cs[k].user == reqs[i].user;
      }
    }
  }

  lemma StoreNew(pre: seq<Request>, r: Request, prev: seq<Candidate>)
    requires IsDictionaryOf(prev, pre)
    requires FindUser(prev, r.user).None?
    ensures IsDictionaryOf(Store(prev, r), pre + [r])
  {
    var reqs := pre + [r];
    var cs := Store(prev, r);
    NewUserNotRequested(pre, r, prev);
    assert cs == prev + [Candidate(r.user, r.time)];
    forall x | 0 <= x < |prev|
      ensures Requested(reqs, cs[x].user)
      ensures cs[x].time == LastRequestTime(reqs, cs[x].user)
      ensures FirstRequest(reqs, cs[x].user) < |pre|
    {
      RequestedExtends(pre, r, prev[x].user);
      AppendUser(pre, r, prev[x].user);
    }
    assert Requested(reqs, r.user) by {
      assert reqs[|pre|] == r;
    }
    AppendUser(pre, r, r.user);
    assert AllRequested(cs, reqs);
    assert HoldsLastTimes(cs, reqs);
    StoreNewOrder(pre, r, prev);
    forall i | 0 <= i < |reqs|
      ensures exists x :: 0 <= x < |cs| && cs[x].user == reqs[i].user
    {
      if i < |pre| {
        assert reqs[i] == pre[i];
        var x :| 0 <= x < |prev| && prev[x].user == pre[i].user;
        assert cs[x].user == reqs[i].user;
      } else {
        assert cs[|prev|].user == reqs[i].user;
      }
    }
  }

  /** A user without an entry has not asked yet. */
  lemma NewUserNotRequested(pre: seq<Request>, r: Request, prev: seq<Candidate>)
    requires CoversRequests(prev, pre)
    requires FindUser(prev, r.user).None?
    ensures !Requested(pre, r.user)
    ensures DistinctUsers(prev) ==> DistinctUsers(prev + [Candidate(r.user, r.time)])
  {
  }

  /** A new user's entry goes last, and its first request is the appended one. */
  lemma StoreNewOrder(pre: seq<Request>, r: Request, prev: seq<Candidate>)
    requires IsDictionaryOf(prev, pre)
    requires FindUser(prev, r.user).None?
    ensures AllRequested(Store(prev, r), pre + [r])
    ensures InFirstRequestOrder(Store(prev, r), pre + [r])
  {
    var reqs := pre + [r];
    var cs := Store(prev, r);
    NewUserNotRequested(pre, r, prev);
    assert cs == prev + [Candidate(r.user, r.time)];
    forall x | 0 <= x < |prev|
      ensures Requested(reqs, cs[x].user)
      ensures FirstRequest(reqs, cs[x].user) == FirstRequest(pre, prev[x].user) < |pre|
    {
      RequestedExtends(pre, r, prev[x].user);
      AppendUser(pre, r, prev[x].user);
    }
    assert Requested(reqs, r.user) by {
      assert reqs[|pre|] == r;
    }
    AppendUser(pre, r, r.user);
    forall a, b | 0 <= a < b < |cs|
      ensures FirstRequest(reqs, cs[a].user) < FirstRequest(reqs, cs[b].user)
    {
      if b < |prev| {
        assert FirstRequest(pre, prev[a].user) < FirstRequest(pre, prev[b].user);
      }
    }
  }

  /** The sort key `(-comment_count, request_time)` of `a` is strictly below that of `b`. */
  predicate Before(count: Counts, a: Candidate, b: Candidate) {
    count(a.user) > count(b.user) || (count(a.user) == count(b.user) && a.time < b.time)
  }

  /** Inserts `c` after every entry whose key is not above its own (which keeps the sort stable). */
  function Insert(count: Counts, sorted: seq<Candidate>, c: Candidate): (r: seq<Candidate>)
    ensures |r| == |sorted| + 1
    ensures r[0] == if sorted == [] || Before(count, c, sorted[0]) then c else sorted[0]
  {
    if |sorted| == 0 then [c]
    else if Before(count, c, sorted[0]) then [c] + sorted
    else [sorted[0]] + Insert(count, sorted[1..], c)
  }

  lemma {:induction false} InsertPermutation(count: Counts, sorted: seq<Candidate>, c: Candidate)
    ensures multiset(Insert(count, sorted, c)) == multiset(sorted) + multiset{c}
  {
    if |sorted| > 0 && !Before(count, c, sorted[0]) {
      InsertPermutation(count, sorted[1..], c);
      assert sorted == [sorted[0]] + sorted[1..];
    }
  }

  predicate SortedByKey(count: Counts, s: seq<Candidate>) {
    forall a, b :: 0 <= a < b < |s| ==> !Before(count, s[b], s[a])
  }

  lemma {:induction false} InsertSorted(count: Counts, sorted: seq<Candidate>, c: Candidate)
    requires SortedByKey(count, sorted)
    ensures SortedByKey(count, Insert(count, sorted, c))
    decreases |sorted|
  {
    if |sorted| > 0 && !Before(count, c, sorted[0]) {
      InsertSorted(count, sorted[1..], c);
      var r := Insert(count, sorted, c);
      var tail := Insert(count, sorted[1..], c);
      assert r == [sorted[0]] + tail;
      InsertPermutation(count, sorted[1..], c);
      forall b | 1 <= b < |r|
        ensures !Before(count, r[b], r[0])
      {
        assert r[b] in multiset(tail);
        assert r[b] == c || r[b] in multiset(sorted[1..]);
        if r[b] != c {
          var x :| 0 <= x < |sorted[1..]| && sorted[1..][x] == r[b];
          assert sorted[x + 1] == r[b];
        }
      }
    }
  }

  /** `sorted(entries, key=...)`: a stable sort, modelled as insertion sort. */
  function SortByKey(count: Counts, cs: seq<Candidate>): (r: seq<Candidate>)
    ensures |r| == |cs|
  {
    if |cs| == 0 then []
    else Insert(count, SortByKey(count, cs[..|cs| - 1]), cs[|cs| - 1])
  }

  /** The sort returns a rearrangement of its input ... */
  lemma {:induction false} SortByKeyPermutation(count: Counts, cs: seq<Candidate>)
    ensures multiset(SortByKey(count, cs)) == multiset(cs)
  {
    if |cs| > 0 {
      var pre := cs[..|cs| - 1];
      SortByKeyPermutation(count, pre);
      InsertPermutation(count, SortByKey(count, pre), cs[|cs| - 1]);
      assert cs == pre + [cs[|cs| - 1]];
    }
  }

  /** ... in key order. */
  lemma {:induction false} SortByKeySorted(count: Counts, cs: seq<Candidate>)
    ensures SortedByKey(count, SortByKey(count, cs))
  {
    if |cs| > 0 {
      var pre := cs[..|cs| - 1];
      SortByKeySorted(count, pre);
      InsertSorted(count, SortByKey(count, pre), cs[|cs| - 1]);
    }
  }

  /** No entry's key is below that of `cs[b]`, and every earlier entry's key is above it. */
  predicate IsFirstMinimal(count: Counts, cs: seq<Candidate>, b: int) {
    && 0 <= b < |cs|
    && (forall j :: 0 <= j < |cs| ==> !Before(count, cs[j], cs[b]))
    && (forall j :: 0 <= j < b ==> Before(count, cs[b], cs[j]))
  }

  /**
   * The head of the stable sort is the first entry whose key is minimal: no
   * entry is strictly before it, and it is strictly before every earlier entry.
   */
  lemma {:induction false} HeadOfSort(count: Counts, cs: seq<Candidate>) returns (b: nat)
    requires |cs| > 0
    ensures IsFirstMinimal(count, cs, b) && SortByKey(count, cs)[0] == cs[b]
  {
    var n := |cs|;
    var pre := cs[..n - 1];
    var c := cs[n - 1];
    assert cs == pre + [c];
    assert SortByKey(count, cs) == Insert(count, SortByKey(count, pre), c);
    if n == 1 {
      b := 0;
    } else {
      var p := HeadOfSort(count, pre);
      if Before(count, c, pre[p]) {
        NewHead(count, pre, c, p);
        b := n - 1;
      } else {
        OldHead(count, pre, c, p);
        b := p;
      }
    }
  }

  /** Appending an entry strictly before the current first minimum makes it the first minimum. */
  lemma NewHead(count: Counts, pre: seq<Candidate>, c: Candidate, p: nat)
    requires IsFirstMinimal(count, pre, p) && Before(count, c, pre[p])
    ensures IsFirstMinimal(count, pre + [c], |pre|)
  {
    var cs := pre + [c];
    forall j | 0 <= j < |pre|
      ensures Before(count, c, cs[j])
    {
      assert cs[j] == pre[j];
      BeforeThenNotBefore(count, c, pre[p], pre[j]);
    }
  }

  /** Appending an entry not strictly before the current first minimum keeps it. */
  lemma OldHead(count: Counts, pre: seq<Candidate>, c: Candidate, p: nat)
    requires IsFirstMinimal(count, pre, p) && !Before(count, c, pre[p])
    ensures IsFirstMinimal(count, pre + [c], p)
  {
    var cs := pre + [c];
    assert forall j :: 0 <= j < |pre| ==> cs[j] == pre[j];
  }

  /** A key strictly below one that is at most a third is strictly below the third. */
  lemma BeforeThenNotBefore(count: Counts, a: Candidate, b: Candidate, c: Candidate)
    requires Before(count, a, b) && !Before(count, c, b)
    ensures Before(count, a, c)
  {
  }

  /**
   * `u` is a legitimate winner among the requests: it asked, and it beats
   * every request.
   */
  predicate Wins(count: Counts, reqs: seq<Request>, u: string) {
    && Requested(reqs, u)
    && (forall i :: 0 <= i < |reqs| ==> Beats(count, reqs, u, i))
  }

  /**
   * `analyze_assignment_candidates`: no winner for no requests; otherwise the
   * head of the sorted candidate dictionary.
   */
  function SelectCandidate(count: Counts, reqs: seq<Request>): (r: Option<string>)
    ensures r.None? <==> |reqs| == 0
  {
    if |reqs| == 0 then None
    else Some(SortByKey(count, Tally(reqs))[0].user)
  }

  /** The selected user is a winner (see `Wins`). */
  lemma SelectCandidateWins(count: Counts, reqs: seq<Request>)
    requires |reqs| > 0
    ensures SelectCandidate(count, reqs).Some? && Wins(count, reqs, SelectCandidate(count, reqs).value)
  {
    HeadWins(count, reqs);
  }

  lemma HeadWins(count: Counts, reqs: seq<Request>)
    requires |reqs| > 0
    ensures |Tally(reqs)| > 0 && Wins(count, reqs, SortByKey(count, Tally(reqs))[0].user)
  {
    var cs := Tally(reqs);
    TallyIsDictionary(reqs);
    assert |cs| > 0 by {
      assert exists k :: 0 <= k < |cs| && cs[k].user == reqs[0].user;
    }
    var b := HeadOfSort(count, cs);
    forall i | 0 <= i < |reqs|
      ensures Beats(count, reqs, cs[b].user, i)
    {
      MinimalBeats(count, reqs, cs, b, i);
    }
  }

  /**
   * `u` beats the request `reqs[i]`: its author has no more comments than `u`;
   * with as many comments, its author's last request is not earlier than
   * `u`'s; and on a full tie with another user, `u` asked first.
   */
  predicate Beats(count: Counts, reqs: seq<Request>, u: string, i: int)
    requires Requested(reqs, u) && 0 <= i < |reqs|
  {
    && count(reqs[i].user) <= count(u)
    && (count(reqs[i].user) == count(u) ==> LastRequestTime(reqs, u) <= LastRequestTime(reqs, reqs[i].user))
    && (reqs[i].user != u && count(reqs[i].user) == count(u)
        && LastRequestTime(reqs, reqs[i].user) == LastRequestTime(reqs, u)
        ==> FirstRequest(reqs, u) < FirstRequest(reqs, reqs[i].user))
  }

  /** The first minimal entry of the dictionary beats every request. */
  lemma MinimalBeats(count: Counts, reqs: seq<Request>, cs: seq<Candidate>, b: nat, i: nat)
    requires IsDictionaryOf(cs, reqs) && IsFirstMinimal(count, cs, b) && i < |reqs|
    ensures Requested(reqs, cs[b].user) && Beats(count, reqs, cs[b].user, i)
  {
    var k :| 0 <= k < |cs| && cs[k].user == reqs[i].user;
    assert !Before(count, cs[k], cs[b]);
    if k != b && count(cs[k].user) == count(cs[b].user) && cs[k].time == cs[b].time {
      assert !Before(count, cs[b], cs[k]);
      assert b < k;
    }
  }

  /** At most one user wins: `Wins` fixes the selection completely. */
  lemma WinsUnique(count: Counts, reqs: seq<Request>, u: string, v: string)
    requires Wins(count, reqs, u) && Wins(count, reqs, v)
    ensures u == v
  {
    var i :| 0 <= i < |reqs| && reqs[i].user == u;
    var j :| 0 <= j < |reqs| && reqs[j].user == v;
    assert Beats(count, reqs, u, j);
    assert Beats(count, reqs, v, i);
  }

  /** The selection is the one user that wins. */
  lemma SelectCandidateIsWinner(count: Counts, reqs: seq<Request>, u: string)
    requires Wins(count, reqs, u)
    ensures SelectCandidate(count, reqs) == Some(u)
  {
    var i :| 0 <= i < |reqs| && reqs[i].user == u;
    SelectCandidateWins(count, reqs);
    WinsUnique(count, reqs, SelectCandidate(count, reqs).value, u);
  }

  /**
   * A with 2 comments asked at 10, B with 5 at 20, C with 5 at 15: C has the
   * most comments together with B and asked earlier, so C is chosen.
   */
  lemma MostCommentsThenEarliest()
    ensures SelectCandidate(u => if u == "A" then 2 else 5,
                            [Request("A", 10), Request("B", 20), Request("C", 15)]) == Some("C")
  {
    var count: Counts := u => if u == "A" then 2 else 5;
    var reqs := [Request("A", 10), Request("B", 20), Request("C", 15)];
    assert reqs[0].user == "A" && reqs[1].user == "B" && reqs[2].user == "C";
    assert LastRequestTime(reqs, "C") == 15;
    assert LastRequestTime(reqs, "B") == 20;
    assert LastRequestTime(reqs, "A") == 10;
    assert Requested(reqs, "C") by { assert reqs[2].user == "C"; }
    assert forall i :: 0 <= i < |reqs| ==> Beats(count, reqs, "C", i);
    SelectCandidateIsWinner(count, reqs, "C");
  }

  /**
   * With equal counts, x asked at 1 and again at 9, y at 5: x's stored time is
   * its last request (9), so y is chosen.
   */
  lemma LastRequestCounts()
    ensures SelectCandidate(_ => 3, [Request("x", 1), Request("y", 5), Request("x", 9)]) == Some("y")
  {
    var count: Counts := _ => 3;
    var reqs := [Request("x", 1), Request("y", 5), Request("x", 9)];
    assert reqs[0].user == "x" && reqs[1].user == "y";
    assert LastRequestTime(reqs, "x") == 9;
    assert LastRequestTime(reqs, "y") == 5;
    assert Requested(reqs, "y") by { assert reqs[1].user == "y"; }
    assert forall i :: 0 <= i < |reqs| ==> Beats(count, reqs, "y", i);
    SelectCandidateIsWinner(count, reqs, "y");
  }

  /** On a full tie the user who asked first is chosen. */
  lemma FullTieFirstAsker()
    ensures SelectCandidate(_ => 1, [Request("q", 4), Request("p", 4)]) == Some("q")
  {
    var count: Counts := _ => 1;
    var reqs := [Request("q", 4), Request("p", 4)];
    assert reqs[0].user == "q" && reqs[1].user == "p";
    assert LastRequestTime(reqs, "q") == 4 && LastRequestTime(reqs, "p") == 4;
    assert FirstRequest(reqs, "q") == 0;
    assert FirstRequest(reqs, "p") == 1;
    assert forall i :: 0 <= i < |reqs| ==> Beats(count, reqs, "q", i);
    SelectCandidateIsWinner(count, reqs, "q");
  }
}
