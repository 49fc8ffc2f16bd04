/** The guest-link record (`GuestUrl` in guest_urls/models.py): a proxy to a
    source URL, gated by an optional expiry instant and an optional usage
    limit, and the dispatch operation that checks both before calling the
    proxied view.

    The clock is not read here: every operation that reads it in the source
    takes the reading as a parameter. The view the source URL resolves to is
    passed in as a function from request to response. Persisting the record is
    modelled by the timestamps `save` sets and by a count of saves. */
module Models {
  import opened Wrappers
  import opened Instants

  /** The part of an HTTP request the core looks at. */
  datatype Request = Request(verb: string, path: string)

  /** The three ways `process_request` refuses a request, in place of the
      source's AssertionError, GuestUrlExpired and GuestUrlInvalid. */
  datatype DispatchError = BadMethod(verb: string) | Expired | Invalid

  /** A guest link. `maxUses < 0` means unlimited use (the default is -1);
      `createdAt` and `lastUpdatedAt` are None until the first save. */
  class GuestUrl {
    const sourceUrl: string
    var maxUses: int
    var usedToDate: int
    var expiresAt: Option<Instant>
    var createdAt: Option<Instant>
    var lastUpdatedAt: Option<Instant>
    /** How many times the record has been written to the database. */
    var saveCount: nat

    /** A new, unsaved instance with the model's field defaults. */
    constructor (sourceUrl: string, expiresAt: Option<Instant> := None, maxUses: int := -1)
      ensures this.sourceUrl == sourceUrl && this.expiresAt == expiresAt && this.maxUses == maxUses
      ensures usedToDate == 0 && createdAt == None && lastUpdatedAt == None && saveCount == 0
    {
      this.sourceUrl := sourceUrl;
      this.maxUses := maxUses;
      this.expiresAt := expiresAt;
      usedToDate := 0;
      createdAt := None;
      lastUpdatedAt := None;
      saveCount := 0;
    }

    /** True when the expiry instant is set and already in the past. */
    predicate HasExpired(now: Instant)
      reads this
      ensures expiresAt == None ==> !HasExpired(now)
      ensures expiresAt == Some(now) ==> !HasExpired(now)
      ensures expiresAt.Some? && now <= expiresAt.value ==> !HasExpired(now)
      ensures expiresAt.Some? && expiresAt.value < now ==> HasExpired(now)
    {
      expiresAt.Some? && expiresAt.value < now
    }

    /** True while the usage limit has not been reached. */
    predicate IsValid()
      reads this
      ensures maxUses < 0 ==> IsValid()
      ensures 0 <= maxUses <= usedToDate ==> !IsValid()
      ensures usedToDate < maxUses ==> IsValid()
    {
      maxUses < 0 || usedToDate < maxUses
    }

    /** True when a GET request would be dispatched. */
    predicate CanBeUsed(now: Instant)
      reads this
      ensures CanBeUsed(now) <==>
                (maxUses < 0 || usedToDate < maxUses) &&
                (expiresAt == None || now <= expiresAt.value)
    {
      IsValid() && !HasExpired(now)
    }

    /** `created_at` is never later than `last_updated_at`. */
    predicate TimestampsOrdered()
      reads this
    {
      createdAt.Some? ==> lastUpdatedAt.Some? && createdAt.value <= lastUpdatedAt.value
    }

    /** Writes the record, stamping `created_at` the first time and
        `last_updated_at` every time with the clock reading `now`. */
    method Save(now: Instant)
      modifies this`createdAt, this`lastUpdatedAt, this`saveCount
      ensures createdAt == if old(createdAt) == None then Some(now) else old(createdAt)
      ensures lastUpdatedAt == Some(now)
      ensures saveCount == old(saveCount) + 1
      ensures old(TimestampsOrdered()) && (old(lastUpdatedAt) == None || old(lastUpdatedAt).value <= now)
              ==> TimestampsOrdered()
    {
      if createdAt == None {
        createdAt := Some(now);
      }
      lastUpdatedAt := Some(now);
      saveCount := saveCount + 1;
    }

    /** Dispatches `request` to the view behind the link. `now` is the clock
        reading of the expiry check and `saveNow` that of the save which
        follows a successful dispatch. The method is checked first, then
        expiry, then the usage limit; only when all pass is the view called,
        the use counted and the record saved. */
    method ProcessRequest<R>(request: Request, now: Instant, saveNow: Instant, handler: Request -> R)
      returns (r: Result<R, DispatchError>)
      modifies this`usedToDate, this`createdAt, this`lastUpdatedAt, this`saveCount
      ensures request.verb != "GET" ==> r == Failure(BadMethod(request.verb))
      ensures request.verb == "GET" && old(HasExpired(now)) ==> r == Failure(Expired)
      ensures request.verb == "GET" && !old(HasExpired(now)) && !old(IsValid()) ==> r == Failure(Invalid)
      ensures r.Success? <==> request.verb == "GET" && old(CanBeUsed(now))
      ensures r.Failure? ==> unchanged(this)
      ensures r.Success? ==>
                r.value == handler(request) &&
                usedToDate == old(usedToDate) + 1 &&
                createdAt == (if old(createdAt) == None then Some(saveNow) else old(createdAt)) &&
                lastUpdatedAt == Some(saveNow) &&
                saveCount == old(saveCount) + 1
    {
      if request.verb != "GET" {
        return Failure(BadMethod(request.verb));
      }
      if HasExpired(now) {
        return Failure(Expired);
      } else if !IsValid() {
        return Failure(Invalid);
      }
      var response := handler(request);
      usedToDate := usedToDate + 1;
      Save(saveNow);
      r := Success(response);
    }
  }

  /** The manager's factory: a new link for `sourceUrl`, unlimited and
      without expiry unless told otherwise, saved at clock reading `now`
      when `save` is set. */
  method CreateGuestUrl(now: Instant, sourceUrl: string, expiresAt: Option<Instant> := None,
                        maxUses: int := -1, save: bool := true)
    returns (g: GuestUrl)
    ensures fresh(g)
    ensures g.sourceUrl == sourceUrl && g.expiresAt == expiresAt && g.maxUses == maxUses
    ensures g.usedToDate == 0 && g.TimestampsOrdered()
    ensures save ==> g.createdAt == Some(now) && g.lastUpdatedAt == Some(now) && g.saveCount == 1
    ensures !save ==> g.createdAt == None && g.lastUpdatedAt == None && g.saveCount == 0
  {
    g := new GuestUrl(sourceUrl, expiresAt, maxUses);
    if save {
      g.Save(now);
    }
  }

  /** A new link, saved at `now`, has not been used; one GET dispatched at
      `later` returns the view's response and leaves the count at 1. */
  method LinkWorks<R>(now: Instant, later: Instant, request: Request, handler: Request -> R)
    returns (before: int, response: Result<R, DispatchError>, after: int)
    requires request.verb == "GET"
    ensures before == 0 && after == 1
    ensures response == Success(handler(request))
  {
    var g := new GuestUrl(request.path);
    g.Save(now);
    before := g.usedToDate;
    response := g.ProcessRequest(request, later, later, handler);
    after := g.usedToDate;
  }

  /** The end-to-end scenario of a single-use link: the first GET is served
      with the view's own response, the second is refused as used up. */
  method SingleUseLink<R>(now: Instant, later: Instant, request: Request, handler: Request -> R)
    returns (first: Result<R, DispatchError>, second: Result<R, DispatchError>)
    requires request.verb == "GET"
    ensures first == Success(handler(request))
    ensures second == Failure(Invalid)
  {
    var g := CreateGuestUrl(now, request.path, maxUses := 1);
    first := g.ProcessRequest(request, now, now, handler);
    second := g.ProcessRequest(request, later, later, handler);
  }

  /** A link limited to `n` uses and without expiry serves exactly `n` GET
      requests, at whatever clock readings, and refuses the next one. */
  method ExhaustAfterN<R>(n: nat, readings: seq<Instant>, request: Request, handler: Request -> R)
    returns (outcomes: seq<Result<R, DispatchError>>)
    requires request.verb == "GET"
    requires |readings| == n + 1
    ensures |outcomes| == n + 1
    ensures forall i :: 0 <= i < n ==> outcomes[i] == Success(handler(request))
    ensures outcomes[n] == Failure(Invalid)
  {
    var g := CreateGuestUrl(readings[0], request.path, maxUses := n);
    outcomes := [];
    var i := 0;
    while i < n
      invariant 0 <= i <= n && |outcomes| == i
      invariant g.maxUses == n && g.expiresAt == None && g.usedToDate == i
      invariant forall k :: 0 <= k < i ==> outcomes[k] == Success(handler(request))
    {
      var r := g.ProcessRequest(request, readings[i], readings[i], handler);
      outcomes := outcomes + [r];
      i := i + 1;
    }
    var last := g.ProcessRequest(request, readings[n], readings[n], handler);
    outcomes := outcomes + [last];
  }

  /** Expiry wins over exhaustion, and a link is still usable at the very
      instant it expires. */
  method ExpiryScenarios<R>(t: Instant, request: Request, handler: Request -> R)
    returns (atExpiry: Result<R, DispatchError>, afterExpiry: Result<R, DispatchError>)
    requires request.verb == "GET"
    ensures atExpiry == Success(handler(request))
    ensures afterExpiry == Failure(Expired)
  {
    var open := CreateGuestUrl(t, request.path, expiresAt := Some(t));
    atExpiry := open.ProcessRequest(request, t, t, handler);
    var spent := CreateGuestUrl(t, request.path, expiresAt := Some(t), maxUses := 0);
    afterExpiry := spent.ProcessRequest(request, t + 1, t + 1, handler);
  }
}
