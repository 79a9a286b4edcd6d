/** The presentation state of a paged resource list. Every arithmetic step is checked to stay within 64 bits. */
module Pagination {
  import opened Content

  newtype u64 = x: int | 0 <= x < 0x1_0000_0000_0000_0000

  const LIMIT: u64 := 50
  const U64_MAX: u64 := 0xFFFF_FFFF_FFFF_FFFF
  const I64_MAX: u64 := 0x7FFF_FFFF_FFFF_FFFF
  /** The last page whose offset a signed 64-bit integer can hold. */
  const LAST_PAGE: u64 := I64_MAX / LIMIT

  datatype PageRequest = PageRequest(page: u64, generation: u64) {
    function Offset(): u64
      requires page <= LAST_PAGE
    {
      page * LIMIT
    }
  }

  /** The value of `ResourcePagination`. */
  datatype State = State(page: u64, total: Option<u64>, loading: bool, generation: u64) {
    predicate IsCurrent(request: PageRequest) {
      loading && generation == request.generation && page == request.page
    }

    predicate Ready() {
      !loading && total.Some?
    }

    /** The number of pages the known total fills. */
    function Pages(): u64 {
      match total
      case Some(n) => if n > 0 then (n - 1) / LIMIT + 1 else 0
      case None => 0
    }

    function Previous(): Option<u64> {
      if Ready() && page > 0 then Some(page - 1) else None
    }

    function Next(): Option<u64>
      requires page <= LAST_PAGE
    {
      if Ready() && page + 1 < Pages() then Some(page + 1) else None
    }

    function Range(visible: u64): (u64, u64)
      requires page <= LAST_PAGE
    {
      if Ready() && total.value > 0 && visible > 0 then
        var offset := page * LIMIT;
        var end := if visible <= U64_MAX - offset then offset + visible else U64_MAX;
        (offset + 1, if end <= total.value then end else total.value)
      else (0, 0)
    }

    /** The page is representable, and a ready state shows a page of its total. */
    ghost predicate Sane() {
      page <= LAST_PAGE && (Ready() ==> page <= LastPage(total.value))
    }
  }

  /** `total.saturating_sub(1) / LIMIT`. */
  function LastPage(total: u64): u64 {
    if total == 0 then 0 else (total - 1) / LIMIT
  }

  const INITIAL := State(0, None, false, 0)

  function BeginState(s: State, page: u64): State {
    State(
      if page <= LAST_PAGE then page else LAST_PAGE, None, true,
      if s.generation == U64_MAX then 0 else s.generation + 1)
  }

  function Issued(s: State): PageRequest {
    PageRequest(s.page, s.generation)
  }

  /** The state after a response, and the corrected request if the page has fallen off the end. */
  function CompleteState(s: State, request: PageRequest, total: u64): (State, Option<PageRequest>) {
    if !s.IsCurrent(request) then (s, None)
    else if s.page > LastPage(total) then
      var corrected := BeginState(s, LastPage(total));
      (corrected, Some(Issued(corrected)))
    else (s.(total := Some(total), loading := false), None)
  }

  function FailState(s: State, request: PageRequest): State {
    if s.IsCurrent(request) then s.(total := None, loading := false) else s
  }

  class ResourcePagination {
    var page: u64
    var total: Option<u64>
    var loading: bool
    var generation: u64

    function Value(): State
      reads this
    {
      State(page, total, loading, generation)
    }

    constructor ()
      ensures Value() == INITIAL && page == 0 && !loading && total == None
    {
      page, total, loading, generation := 0, None, false, 0;
    }

    method Begin(page: u64) returns (request: PageRequest)
      modifies this
      ensures Value() == BeginState(old(Value()), page) && request == Issued(Value())
      ensures Value().Sane() && request.Offset() <= I64_MAX
    {
      this.page := if page <= I64_MAX / LIMIT then page else I64_MAX / LIMIT;
      generation := if generation == U64_MAX then 0 else generation + 1;
      total := None;
      loading := true;
      request := PageRequest(this.page, generation);
    }

    method Complete(request: PageRequest, total: u64) returns (corrected: Option<PageRequest>)
      requires Value().Sane()
      modifies this
      ensures (Value(), corrected) == CompleteState(old(Value()), request, total)
      ensures Value().Sane()
    {
      if !Value().IsCurrent(request) { return None; }
      var last := (if total == 0 then 0 else total - 1) / LIMIT;
      if page > last {
        var next := Begin(last);
        return Some(next);
      }
      this.total := Some(total);
      loading := false;
      return None;
    }

    method Fail(request: PageRequest)
      requires Value().Sane()
      modifies this
      ensures Value() == FailState(old(Value()), request) && Value().Sane()
    {
      if Value().IsCurrent(request) {
        total := None;
        loading := false;
      }
    }
  }

  // ---- Whole runs ----

  /** One event: a page is requested, or the response to some earlier request arrives or fails. */
  datatype Event = Begin(page: u64) | Complete(which: nat, total: u64) | Fail(which: nat)

  /** The state and every request issued so far, corrections included. */
  datatype Session = Session(state: State, issued: seq<PageRequest>)

  ghost predicate Legal(session: Session, e: Event) {
    e.Begin? || e.which < |session.issued|
  }

  function Step(session: Session, e: Event): Session
    requires e.Begin? || e.which < |session.issued|
  {
    match e
    case Begin(page) =>
      var s := BeginState(session.state, page);
      Session(s, session.issued + [Issued(s)])
    case Complete(which, total) =>
      var (s, corrected) := CompleteState(session.state, session.issued[which], total);
      Session(s, match corrected case None => session.issued case Some(r) => session.issued + [r])
    case Fail(which) => session.(state := FailState(session.state, session.issued[which]))
  }

  ghost predicate Run(sessions: seq<Session>, events: seq<Event>) {
    && |sessions| == |events| + 1 && sessions[0] == Session(INITIAL, [])
    && forall i :: 0 <= i < |events| ==>
         Legal(sessions[i], events[i]) && sessions[i + 1] == Step(sessions[i], events[i])
  }

  /** Fewer than 2^64 requests: generations count them, and the state is sane and belongs to the latest one. */
  ghost predicate Counted(session: Session) {
    && |session.issued| <= U64_MAX as int
    && session.state.Sane()
    && session.state.generation as int == |session.issued|
    && (forall i :: 0 <= i < |session.issued| ==>
          session.issued[i].generation as int == i + 1 && session.issued[i].page <= LAST_PAGE)
    && (session.issued != [] ==> session.state.page == session.issued[|session.issued| - 1].page)
    && (session.issued == [] ==> session.state == INITIAL)
  }

  lemma {:induction false} RunStaysCounted(sessions: seq<Session>, events: seq<Event>, n: nat)
    requires Run(sessions, events) && n < |sessions| && |sessions[n].issued| <= U64_MAX as int
    ensures Counted(sessions[n])
  {
    if n > 0 {
      assert sessions[n] == Step(sessions[n - 1], events[n - 1]);
      RunStaysCounted(sessions, events, n - 1);
    }
  }

  /** Only the latest request, while it is unanswered, can change the state. */
  lemma OnlyTheLatestRequestMatters(sessions: seq<Session>, events: seq<Event>, n: nat)
    requires Run(sessions, events) && n < |events| && |sessions[n + 1].issued| <= U64_MAX as int
    requires !events[n].Begin? && sessions[n + 1] != sessions[n]
    ensures events[n].which == |sessions[n].issued| - 1 && sessions[n].state.loading
  {
    assert sessions[n + 1] == Step(sessions[n], events[n]);
    RunStaysCounted(sessions, events, n);
  }

  /** In every reachable state, pages and offsets are representable and a ready page lies within its total. */
  lemma ReadyPagesLieWithinTheirTotal(sessions: seq<Session>, events: seq<Event>, n: nat, visible: u64)
    requires Run(sessions, events) && n < |sessions| && |sessions[n].issued| <= U64_MAX as int
    ensures var s := sessions[n].state;
            && s.page <= LAST_PAGE && (s.page as int) * (LIMIT as int) <= I64_MAX as int
            && (s.Ready() && s.total.value > 0 ==> (s.page as int) * (LIMIT as int) < s.total.value as int)
            && (s.Ready() && s.total.value == 0 ==> s.page == 0)
            && var (first, last) := s.Range(visible);
            && ((first, last) != (0, 0) <==> s.Ready() && s.total.value > 0 && visible > 0)
            && ((first, last) != (0, 0) ==> 1 <= first <= last <= s.total.value)
  {
    RunStaysCounted(sessions, events, n);
    var s := sessions[n].state;
    if s.Ready() && s.total.value > 0 {
      var q := (s.total.value as int - 1) / 50;
      assert s.total.value as int - 1 >= q * 50;
      assert s.page as int <= q;
    }
  }

  // ---- What each operation means, in plain arithmetic ----

  /** The last page of a total holds its last record. */
  lemma LastPageExactly(total: u64)
    ensures var last := LastPage(total) as int;
            if total == 0 then last == 0 else last * 50 < total as int <= (last + 1) * 50
  {
    if total > 0 {
      var q := (total as int - 1) / 50;
      assert q * 50 <= total as int - 1 < q * 50 + 50;
    }
  }

  /** A page lies beyond the last one exactly if it is not the first and its offset is at or beyond the total. */
  lemma BeyondExactly(page: u64, total: u64)
    ensures page > LastPage(total) <==> page != 0 && total as int <= page as int * 50
  {
    LastPageExactly(total);
    var last := LastPage(total) as int;
    if page as int > last {
      assert page as int * 50 >= (last + 1) * 50;
    } else {
      assert page as int * 50 <= last * 50;
    }
  }

  /**
   * A current response is corrected exactly if its page is not the first and begins at or beyond the total; the
   * correction asks for the last page with records, or the first if there are none. Otherwise the page is shown. A
   * stale response does nothing.
   */
  lemma CorrectionExactly(s: State, request: PageRequest, total: u64)
    requires s.Sane()
    ensures var (after, corrected) := CompleteState(s, request, total);
            && (!s.IsCurrent(request) ==> after == s && corrected == None)
            && (corrected.Some? <==>
                s.IsCurrent(request) && request.page != 0 && total as int <= request.page as int * 50)
            && (corrected.Some? ==>
                  var page := corrected.value.page as int;
                  && after.IsCurrent(corrected.value)
                  && if total == 0 then page == 0 else page * 50 < total as int <= (page + 1) * 50)
            && (s.IsCurrent(request) && corrected.None? ==>
                  after.Ready() && after.total == Some(total) && after.page == request.page)
  {
    BeyondExactly(s.page, total);
    LastPageExactly(total);
  }

  /** A current failure leaves nothing loading and nothing ready, on the same page; a stale one does nothing. */
  lemma FailureExactly(s: State, request: PageRequest)
    ensures var after := FailState(s, request);
            if s.IsCurrent(request) then
              !after.loading && !after.Ready() && after.page == s.page && !after.IsCurrent(request)
            else after == s
  {
  }

  /** A request is for the page asked for, or the last one whose offset fits, and makes every earlier one stale. */
  lemma BeginExactly(s: State, page: u64, earlier: PageRequest)
    ensures var after := BeginState(s, page);
            && after.IsCurrent(Issued(after)) && !after.Ready()
            && (page as int * 50 <= I64_MAX as int ==> after.page == page)
            && (I64_MAX as int < page as int * 50 ==>
                  after.page as int * 50 <= I64_MAX as int < (after.page as int + 1) * 50)
            && (earlier.generation == s.generation ==> !after.IsCurrent(earlier))
  {
    assert LAST_PAGE as int * 50 <= I64_MAX as int < (LAST_PAGE as int + 1) * 50;
  }

  /** There is a next page exactly if records follow the shown one, and a previous one unless it is the first. */
  lemma NavigationExactly(s: State)
    requires s.Sane()
    ensures s.Next() == if s.Ready() && (s.page as int + 1) * 50 < s.total.value as int then Some(s.page + 1) else None
    ensures s.Previous() == if s.Ready() && s.page != 0 then Some(s.page - 1) else None
  {
    if s.Ready() && s.total.value > 0 {
      LastPageExactly(s.total.value);
      BeyondExactly(s.page + 1, s.total.value);
    }
  }

  /** The displayed range is that of the visible records, cut off at the total. */
  lemma RangeExactly(s: State, visible: u64)
    requires s.Sane()
    ensures var (first, last) := s.Range(visible);
            if s.Ready() && s.total.value > 0 && visible > 0 then
              && first as int == s.page as int * 50 + 1
              && last as int == Min(s.page as int * 50 + visible as int, s.total.value as int)
            else first == 0 && last == 0
  {
  }

  function Min(a: int, b: int): int {
    if a < b then a else b
  }

  /** A correction asks for a strictly lower page. */
  lemma CorrectionLowersThePage(s: State, request: PageRequest, total: u64)
    requires s.Sane() && CompleteState(s, request, total).1.Some?
    ensures CompleteState(s, request, total).1.value.page < request.page
    ensures CompleteState(s, request, total).0.IsCurrent(CompleteState(s, request, total).1.value)
  {
  }

  /**
   * Going to the next page and back arrives at the same page, as long as the total stays, exactly below the last page
   * a signed 64-bit offset can hold; there, with a total beyond that, "next" stays where it is.
   */
  lemma PreviousUndoesNext(s: State)
    requires s.Sane() && s.Next().Some?
    ensures var begun := BeginState(s, s.Next().value);
            var arrived := CompleteState(begun, Issued(begun), s.total.value).0;
            && arrived.Ready()
            && (s.page < LAST_PAGE ==> arrived.page == s.Next().value && arrived.Previous() == Some(s.page))
            && (s.page == LAST_PAGE ==> arrived.page == s.page)
  {
    assert s.Pages() == LastPage(s.total.value) + 1;
  }

  /** Answering each correction at once with whatever total arrives next. */
  method FollowCorrections(pagination: ResourcePagination, request: PageRequest, totals: nat -> u64)
    returns (rounds: nat, settled: PageRequest)
    requires pagination.Value().Sane() && pagination.Value().IsCurrent(request)
    modifies pagination
    ensures pagination.Value().Sane() && pagination.Value().Ready()
    ensures rounds <= request.page as int
    ensures settled.page as int + rounds <= request.page as int
    ensures pagination.Value().page == settled.page && pagination.Value().total == Some(totals(rounds))
    ensures (forall i :: totals(i) == totals(0)) ==> rounds <= 1
  {
    rounds, settled := 0, request;
    var corrected := pagination.Complete(settled, totals(0));
    while corrected.Some?
      invariant pagination.Value().Sane()
      invariant settled.page as int + rounds <= request.page as int
      invariant corrected.Some? ==> corrected.value.page < settled.page && pagination.Value().IsCurrent(corrected.value)
      invariant corrected.Some? ==> corrected.value.page == LastPage(totals(rounds))
      invariant 0 < rounds ==> settled.page == LastPage(totals(rounds - 1))
      invariant (forall i :: totals(i) == totals(0)) ==> rounds <= 1 && (rounds == 1 ==> corrected.None?)
      invariant corrected.None? ==> pagination.Value().Ready() && pagination.Value().page == settled.page
                                    && pagination.Value().total == Some(totals(rounds))
      decreases corrected.Some?, settled.page
    {
      rounds := rounds + 1;
      settled := corrected.value;
      corrected := pagination.Complete(settled, totals(rounds));
    }
  }

  // ---- Reading everything ----

  /** The rows of one page of `total` records. */
  function Rows(total: nat, offset: nat): seq<nat> {
    if offset < total then seq(if total - offset < 50 then total - offset else 50, i => offset + i) else []
  }

  /**
   * Following `next` from page 0 over a fixed total shows every record exactly once, in order, and stops; on every
   * page the displayed range is that of its rows.
   */
  method ReadEverything(total: u64) returns (visited: seq<nat>, pages: nat)
    requires total <= I64_MAX
    ensures visited == seq(total as int, i => i)
    ensures pages == if total == 0 then 1 else (total as int - 1) / 50 + 1
  {
    var pagination := new ResourcePagination();
    visited, pages := [], 0;
    var next: Option<u64> := Some(0);
    var n := total as nat;
    while next.Some?
      invariant pagination.Value().Sane()
      invariant next.Some? ==> next.value as int == pages && pages * 50 <= n && (0 < pages ==> pages * 50 < n)
      invariant next.Some? ==> visited == seq(pages * 50, i => i)
      invariant next.None? ==> visited == seq(n, i => i) && pages == if n == 0 then 1 else (n - 1) / 50 + 1
      decreases next.Some?, n - pages * 50 + 50
    {
      var request := pagination.Begin(next.value);
      assert request.page as int == pages;
      var corrected := pagination.Complete(request, total);
      var rows := Rows(n, request.Offset() as nat);
      assert rows != [] ==>
          pagination.Value().Range(|rows| as u64) == (request.Offset() + 1, request.Offset() + |rows| as u64);
      visited := visited + rows;
      pages := pages + 1;
      next := pagination.Value().Next();
    }
  }
}
