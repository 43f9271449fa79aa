/** Application errors: the value an error chain carries, errors.Is and errors.As
    over such chains, the copying derivations, and the two transport renderings.

    An error is a finite unwrap chain. `Plain` stands for any opaque error of a
    driver or library, identified by its text. */
module AppErrors {
  import opened Domain

  datatype Err =
    | App(code: string, message: string, httpStatus: int, grpcCode: int,
          cause: Option<Err>, meta: map<string, string>)
    | Wrapped(text: string, inner: Err)
    | Status(grpc: int, text: string)
    | Plain(text: string)
  {
    function Unwrap(): Option<Err> {
      match this
      case App(_, _, _, _, cause, _) => cause
      case Wrapped(_, inner) => Some(inner)
      case _ => None
    }
  }

  function New(code: string, message: string, httpStatus: int, grpcCode: int): Err {
    App(code, message, httpStatus, grpcCode, None, map[])
  }

  // ---- the catalogue ----

  const ERR_INVALID_REQUEST := New("invalid_request", "the request is invalid", 400, 3)
  const ERR_UNAUTHORIZED := New("unauthorized", "authentication required", 401, 16)
  const ERR_FORBIDDEN := New("forbidden", "operation not permitted", 403, 7)
  const ERR_NOT_FOUND := New("not_found", "resource not found", 404, 5)
  const ERR_ALREADY_EXISTS := New("already_exists", "resource already exists", 409, 6)
  const ERR_CONFLICT := New("conflict", "resource conflict", 409, 10)
  const ERR_TOO_MANY_REQUESTS := New("too_many_requests", "rate limit exceeded", 429, 8)
  const ERR_INTERNAL := New("internal", "internal server error", 500, 13)
  const ERR_ACCOUNT_NOT_FOUND := New("account_not_found", "account not found", 404, 5)
  const ERR_ACCOUNT_ALREADY_EXISTS := New("account_already_exists", "account already exists", 409, 6)
  const ERR_INVALID_EMAIL := New("invalid_email", "invalid email", 400, 3)
  const ERR_INVALID_STATUS := New("invalid_status", "invalid account status", 400, 3)
  const ERR_WEAK_PASSWORD := New("weak_password", "password does not meet strength requirements", 400, 3)
  const ERR_INVALID_CREDENTIALS := New("invalid_credentials", "invalid credentials", 401, 16)
  const ERR_ACCOUNT_BLOCKED := New("account_blocked", "account is blocked", 403, 7)

  const CATALOG: seq<Err> := [
    ERR_INVALID_REQUEST, ERR_UNAUTHORIZED, ERR_FORBIDDEN, ERR_NOT_FOUND, ERR_ALREADY_EXISTS,
    ERR_CONFLICT, ERR_TOO_MANY_REQUESTS, ERR_INTERNAL, ERR_ACCOUNT_NOT_FOUND,
    ERR_ACCOUNT_ALREADY_EXISTS, ERR_INVALID_EMAIL, ERR_INVALID_STATUS, ERR_WEAK_PASSWORD,
    ERR_INVALID_CREDENTIALS, ERR_ACCOUNT_BLOCKED]

  /** The HTTP status conventionally paired with a gRPC code. */
  function HttpOfGrpc(code: int): int {
    match code
    case 3 => 400
    case 5 => 404
    case 6 => 409
    case 7 => 403
    case 8 => 429
    case 10 => 409
    case 16 => 401
    case _ => 500
  }

  // ---- chains ----

  /** The error followed by everything it unwraps to. */
  function Chain(e: Err): (c: seq<Err>)
    ensures |c| > 0 && c[0] == e
  {
    match e
    case App(_, _, _, _, Some(inner), _) => [e] + Chain(inner)
    case Wrapped(_, inner) => [e] + Chain(inner)
    case _ => [e]
  }

  /** Each error of the chain unwraps to the next, the last to nothing. */
  lemma {:induction false} ChainUnwraps(e: Err, k: nat)
    requires k < |Chain(e)|
    ensures Chain(e)[k].Unwrap() == if k + 1 < |Chain(e)| then Some(Chain(e)[k + 1]) else None
  {
    match e.Unwrap() {
      case None =>
        assert Chain(e) == [e];
      case Some(inner) =>
        assert Chain(e) == [e] + Chain(inner);
        if k > 0 { ChainUnwraps(inner, k - 1); }
    }
  }

  /** errors.As with an AppError target: the outermost AppError. */
  function AsApp(e: Err): (r: Option<Err>)
    ensures r.Some? ==> r.value.App?
  {
    match e
    case App(_, _, _, _, _, _) => Some(e)
    case Wrapped(_, inner) => AsApp(inner)
    case _ => None
  }

  /** One node of errors.Is: identity, or the AppError's own Is method. */
  predicate NodeIs(node: Err, target: Err) {
    || node == target
    || (node.App? && match AsApp(target) case Some(t) => node.code == t.code case None => false)
  }

  /** errors.Is: walk the chain until a node matches. */
  predicate Is(e: Err, target: Err) {
    || NodeIs(e, target)
    || match e
       case App(_, _, _, _, Some(inner), _) => Is(inner, target)
       case Wrapped(_, inner) => Is(inner, target)
       case _ => false
  }

  predicate SomeNodeIs(c: seq<Err>, target: Err) {
    exists k :: 0 <= k < |c| && NodeIs(c[k], target)
  }

  lemma SomeNodeIsCons(e: Err, rest: seq<Err>, target: Err)
    ensures SomeNodeIs([e] + rest, target) <==> NodeIs(e, target) || SomeNodeIs(rest, target)
  {
    var c := [e] + rest;
    if k :| 0 <= k < |c| && NodeIs(c[k], target) {
      if k > 0 { assert NodeIs(rest[k - 1], target); }
    }
    if NodeIs(e, target) { assert NodeIs(c[0], target); }
    if k :| 0 <= k < |rest| && NodeIs(rest[k], target) { assert NodeIs(c[k + 1], target); }
  }

  /** The walk of errors.Is finds a match exactly when the chain has one. */
  lemma {:induction false} IsSearchesChain(e: Err, target: Err)
    ensures Is(e, target) <==> SomeNodeIs(Chain(e), target)
  {
    match e.Unwrap() {
      case None =>
        SomeNodeIsCons(e, [], target);
        assert Chain(e) == [e] + [];
      case Some(inner) =>
        IsSearchesChain(inner, target);
        SomeNodeIsCons(e, Chain(inner), target);
    }
  }

  /** `AsApp` picks the first AppError of the chain, if there is one. */
  lemma {:induction false} AsAppIsOutermost(e: Err)
    ensures match AsApp(e)
            case None => forall k :: 0 <= k < |Chain(e)| ==> !Chain(e)[k].App?
            case Some(a) => exists k :: 0 <= k < |Chain(e)| && Chain(e)[k] == a && a.App?
                                     && forall j :: 0 <= j < k ==> !Chain(e)[j].App?
  {
    if e.Wrapped? {
      AsAppIsOutermost(e.inner);
      var c, inner := Chain(e), Chain(e.inner);
      assert c == [e] + inner;
      if a :| AsApp(e) == Some(a) {
        var k :| 0 <= k < |inner| && inner[k] == a && a.App?
              && forall j :: 0 <= j < k ==> !inner[j].App?;
        assert c[k + 1] == a;
        assert forall j :: 0 < j < k + 1 ==> c[j] == inner[j - 1];
      } else {
        assert forall j :: 0 < j < |c| ==> c[j] == inner[j - 1];
      }
    } else {
      assert Chain(e)[0] == e;
    }
  }

  // ---- derivation ----

  datatype Derivation =
    | ByCause(err: Err)
    | ByMessage(message: string)
    | ByMetadata(key: string, value: string)

  function Derive(e: Err, d: Derivation): Err
    requires e.App?
  {
    match d
    case ByCause(err) => e.(cause := Some(err))
    case ByMessage(message) => e.(message := message)
    case ByMetadata(key, value) => e.(meta := e.meta[key := value])
  }

  function DeriveAll(e: Err, ds: seq<Derivation>): (r: Err)
    requires e.App?
    ensures r.App?
    decreases ds
  {
    if ds == [] then e else DeriveAll(Derive(e, ds[0]), ds[1..])
  }

  lemma {:induction false} DeriveAllSnoc(e: Err, ds: seq<Derivation>, d: Derivation)
    requires e.App?
    ensures DeriveAll(e, ds + [d]) == Derive(DeriveAll(e, ds), d)
    decreases ds
  {
    if ds == [] {
      assert ds + [d] == [d] && [d][1..] == [];
    } else {
      assert (ds + [d])[1..] == ds[1..] + [d];
      DeriveAllSnoc(Derive(e, ds[0]), ds[1..], d);
    }
  }

  /** However long the chain of derivations, the code and both statuses stay,
      errors.Is relates the result and every AppError of the base's code in both
      directions, and no metadata key of the base is lost. */
  lemma {:induction false} DerivedKeepsIdentity(e: Err, ds: seq<Derivation>)
    requires e.App?
    ensures var r := DeriveAll(e, ds);
      && r.code == e.code && r.httpStatus == e.httpStatus && r.grpcCode == e.grpcCode
      && Is(r, e)
      && (forall t: Err :: t.App? && t.code == e.code ==> Is(r, t) && Is(t, r))
      && (forall k :: k in e.meta ==> k in r.meta)
    decreases ds
  {
    if ds != [] {
      DerivedKeepsIdentity(Derive(e, ds[0]), ds[1..]);
    }
  }

  /** What no derivation speaks of is the base's. */
  lemma {:induction false} UntouchedStays(e: Err, ds: seq<Derivation>, key: string)
    requires e.App?
    ensures var r := DeriveAll(e, ds);
      && ((forall d :: d in ds ==> !d.ByMessage?) ==> r.message == e.message)
      && ((forall d :: d in ds ==> !d.ByCause?) ==> r.cause == e.cause)
      && ((forall d :: d in ds ==> !(d.ByMetadata? && d.key == key)) ==>
            (key in r.meta <==> key in e.meta) && (key in e.meta ==> r.meta[key] == e.meta[key]))
    decreases ds
  {
    if ds != [] {
      assert ds[0] in ds && forall d :: d in ds[1..] ==> d in ds;
      UntouchedStays(Derive(e, ds[0]), ds[1..], key);
    }
  }

  /** `later` replaces what `earlier` put in. */
  predicate Overrides(later: Derivation, earlier: Derivation) {
    match (later, earlier)
    case (ByCause(_), ByCause(_)) => true
    case (ByMessage(_), ByMessage(_)) => true
    case (ByMetadata(k, _), ByMetadata(l, _)) => k == l
    case _ => false
  }

  /** The message and cause of a derived error are the last ones given, and a
      metadata key holds the last value given for it. */
  lemma {:induction false} LastDerivationWins(e: Err, ds: seq<Derivation>, d: Derivation, rest: seq<Derivation>)
    requires e.App?
    requires forall x :: x in rest ==> !Overrides(x, d)
    ensures var r := DeriveAll(e, ds + [d] + rest);
      match d
      case ByCause(err) => r.cause == Some(err)
      case ByMessage(message) => r.message == message
      case ByMetadata(key, value) => key in r.meta && r.meta[key] == value
    decreases |rest|
  {
    if rest == [] {
      assert ds + [d] + rest == ds + [d];
      DeriveAllSnoc(e, ds, d);
    } else {
      var n := |rest| - 1;
      assert rest[n] in rest && !Overrides(rest[n], d);
      assert ds + [d] + rest == (ds + [d] + rest[..n]) + [rest[n]];
      LastDerivationWins(e, ds, d, rest[..n]);
      DeriveAllSnoc(e, ds + [d] + rest[..n], rest[n]);
    }
  }

  /** Codes tell the catalogue's sentinels apart, so errors.Is between two of
      them, derived any number of times without a cause, is equality of the two
      templates; and each pairs its HTTP status with its gRPC code. */
  lemma SentinelsDistinct(i: nat, j: nat, ds: seq<Derivation>)
    requires i < |CATALOG| && j < |CATALOG|
    requires forall d :: d in ds ==> !d.ByCause?
    ensures CATALOG[i].App? && Is(DeriveAll(CATALOG[i], ds), CATALOG[j]) <==> i == j
    ensures CATALOG[i].httpStatus == HttpOfGrpc(CATALOG[i].grpcCode)
  {
    DerivedKeepsIdentity(CATALOG[i], ds);
    NoCauseAdded(CATALOG[i], ds);
    CodesDistinct(i, j);
  }

  lemma CodesDistinct(i: nat, j: nat)
    requires i < |CATALOG| && j < |CATALOG|
    ensures CATALOG[i].App? && CATALOG[j].App?
    ensures CATALOG[i].code == CATALOG[j].code ==> i == j
  {
  }

  lemma {:induction false} NoCauseAdded(e: Err, ds: seq<Derivation>)
    requires e.App?
    requires forall d :: d in ds ==> !d.ByCause?
    ensures DeriveAll(e, ds).cause == e.cause
    decreases ds
  {
    if ds != [] {
      NoCauseAdded(Derive(e, ds[0]), ds[1..]);
    }
  }

  // ---- classification and rendering ----

  /** The AppError to render and whether one was found. */
  function FromError(e: Err): (Err, bool) {
    match AsApp(e)
    case Some(a) => (a, true)
    case None => (Derive(ERR_INTERNAL, ByCause(e)), false)
  }

  /** Classifying loses nothing: what is not an application error becomes an
      internal one that still is, for errors.Is, the error it came from. */
  lemma {:induction false} FromErrorKeepsError(e: Err, target: Err)
    ensures FromError(e).1 <==> AsApp(e).Some?
    ensures Is(e, target) ==> Is(FromError(e).0, target) || (AsApp(e).Some? && !target.App?)
    ensures !FromError(e).1 ==> FromError(e).0.code == "internal" && FromError(e).0.cause == Some(e)
  {
    if target.App? { IsThroughOutermost(e, target); }
  }

  /** No AppError anywhere in the chain: what drivers and libraries return. */
  predicate Foreign(e: Err) {
    match e
    case App(_, _, _, _, _, _) => false
    case Wrapped(_, inner) => Foreign(inner)
    case _ => true
  }

  /** At most the outermost AppError: no cause below it holds another one. */
  predicate SingleApp(e: Err) {
    match AsApp(e)
    case None => true
    case Some(a) => a.cause.None? || Foreign(a.cause.value)
  }

  lemma {:induction false} ForeignMatchesNoSentinel(e: Err, sentinel: Err)
    requires Foreign(e) && sentinel.App?
    ensures AsApp(e) == None && !Is(e, sentinel)
  {
    if e.Wrapped? {
      ForeignMatchesNoSentinel(e.inner, sentinel);
    }
  }

  lemma {:induction false} SingleAppIs(e: Err, sentinel: Err)
    requires SingleApp(e) && sentinel.App?
    ensures Is(e, sentinel) <==> AsApp(e).Some? && AsApp(e).value.code == sentinel.code
  {
    match e {
      case App(_, _, _, _, Some(inner), _) => ForeignMatchesNoSentinel(inner, sentinel);
      case Wrapped(_, inner) => SingleAppIs(inner, sentinel);
      case _ =>
    }
  }

  /** errors.Is and FromError classify alike: exactly when a deeper AppError of
      the sentinel's code does not hide under an outermost one of another code. */
  lemma {:induction false} ClassificationAgrees(e: Err, sentinel: Err)
    requires sentinel.App? && sentinel.code != ERR_INTERNAL.code
    ensures (Is(e, sentinel) <==> FromError(e).0.code == sentinel.code) <==>
      !(AsApp(e).Some? && AsApp(e).value.code != sentinel.code
        && AsApp(e).value.cause.Some? && Is(AsApp(e).value.cause.value, sentinel))
  {
    IsThroughOutermost(e, sentinel);
  }

  lemma {:induction false} IsThroughOutermost(e: Err, sentinel: Err)
    requires sentinel.App?
    ensures Is(e, sentinel) <==> AsApp(e).Some? && Is(AsApp(e).value, sentinel)
  {
    if e.Wrapped? {
      IsThroughOutermost(e.inner, sentinel);
    }
  }

  /** The JSON body and status of an HTTP error response. */
  datatype HttpError = HttpError(status: int, code: string, message: string, meta: map<string, string>)

  function HttpRender(e: Option<Err>): HttpError {
    var ae := FromError(e.GetOr(ERR_INTERNAL)).0;
    HttpError(ae.httpStatus, ae.code, ae.message, ae.meta)
  }

  /** A gRPC status already present anywhere in the chain. */
  predicate HasStatus(e: Err) {
    match e
    case App(_, _, _, _, Some(inner), _) => HasStatus(inner)
    case Wrapped(_, inner) => HasStatus(inner)
    case Status(_, _) => true
    case _ => false
  }

  /** What the interceptor hands to the gRPC runtime for a failing handler. */
  function GrpcRender(e: Err): Err {
    match FromError(e)
    case (ae, true) => Status(ae.grpcCode, ae.message)
    case (_, false) => if HasStatus(e) then e else Status(13, "internal server error")
  }

  /** What a client of either transport sees: the code and HTTP status of the JSON
      error, and the gRPC status, with one message. */
  predicate Renders(e: Err, code: string, httpStatus: int, grpcCode: int) {
    var h := HttpRender(Some(e));
    h.status == httpStatus && h.code == code && GrpcRender(e) == Status(grpcCode, h.message)
  }

  /** Both transports render the outermost AppError: the same message, each its
      own status, whatever wraps it and whatever its cause is; and an error with
      no AppError and no gRPC status renders as the internal sentinel. */
  lemma {:induction false} TransportsAgree(e: Err)
    ensures match AsApp(e)
      case Some(a) =>
        && HttpRender(Some(e)) == HttpError(a.httpStatus, a.code, a.message, a.meta)
        && GrpcRender(e) == Status(a.grpcCode, a.message)
        && (forall c :: HttpRender(Some(a.(cause := c))) == HttpRender(Some(e))
                     && GrpcRender(a.(cause := c)) == GrpcRender(e))
      case None =>
        && HttpRender(Some(e)) == HttpRender(None)
        && (!HasStatus(e) ==> GrpcRender(e) == Status(ERR_INTERNAL.grpcCode, HttpRender(Some(e)).message))
        && (HasStatus(e) ==> GrpcRender(e) == e)
  {
  }

  predicate StatusInChain(c: seq<Err>) {
    exists k :: 0 <= k < |c| && c[k].Status?
  }

  lemma {:induction false} HasStatusSearchesChain(e: Err)
    ensures HasStatus(e) <==> StatusInChain(Chain(e))
  {
    match e.Unwrap() {
      case None =>
        assert Chain(e) == [e] && Chain(e)[0] == e;
      case Some(inner) =>
        HasStatusSearchesChain(inner);
        var c, rest := Chain(e), Chain(inner);
        assert c == [e] + rest;
        if k :| 0 <= k < |c| && c[k].Status? { assert rest[k - 1].Status?; }
        if k :| 0 <= k < |rest| && rest[k].Status? { assert c[k + 1].Status?; }
    }
  }

  /** A gRPC status anywhere in a chain without AppError passes through as it is:
      the interceptor replaces exactly the chains that have neither. */
  lemma StatusPassesThrough(e: Err)
    requires AsApp(e) == None
    ensures GrpcRender(e) == if StatusInChain(Chain(e)) then e else Status(13, "internal server error")
  {
    HasStatusSearchesChain(e);
  }

  // ---- errors the repositories return ----

  /** The drivers' no-row sentinel (gorm, pgx and mongo each have one). */
  const ERR_NO_ROWS := Plain("no rows")
  /** The unique-violation error of the database. */
  const ERR_UNIQUE_VIOLATION := Plain("23505")

  function ReadErr(driver: Err): Err {
    if Is(driver, ERR_NO_ROWS) then Derive(ERR_ACCOUNT_NOT_FOUND, ByCause(driver))
    else Derive(ERR_INTERNAL, ByCause(driver))
  }

  function WriteErr(driver: Err): Err {
    if Is(driver, ERR_UNIQUE_VIOLATION) then Derive(ERR_ACCOUNT_ALREADY_EXISTS, ByCause(driver))
    else Derive(ERR_INTERNAL, ByCause(driver))
  }

  /** Everything a repository method can return for a foreign driver error: read
      and write mappings, the bare not-found of zero affected rows, the wrapped
      internal error of delete and list, and a cache store's own error. */
  datatype RepoFault =
    | ReadFault(driver: Err)
    | WriteFault(driver: Err)
    | NoRowsAffected
    | OperationFault(what: string, driver: Err)
    | CacheFault(err: Err)

  function RepoError(f: RepoFault): Err {
    match f
    case ReadFault(driver) => ReadErr(driver)
    case WriteFault(driver) => WriteErr(driver)
    case NoRowsAffected => ERR_ACCOUNT_NOT_FOUND
    case OperationFault(what, driver) => Derive(ERR_INTERNAL, ByCause(Wrapped(what, driver)))
    case CacheFault(err) => err
  }

  predicate ForeignFault(f: RepoFault) {
    match f
    case ReadFault(driver) => Foreign(driver)
    case WriteFault(driver) => Foreign(driver)
    case NoRowsAffected => true
    case OperationFault(_, driver) => Foreign(driver)
    case CacheFault(err) => Foreign(err)
  }

  /** For every repository error, errors.Is with account-not-found holds exactly
      when FromError yields that code, and exactly when the row was missing; the
      same for account-already-exists and a unique violation. */
  lemma RepositoryClassification(f: RepoFault)
    requires ForeignFault(f)
    ensures Is(RepoError(f), ERR_ACCOUNT_NOT_FOUND) <==>
      FromError(RepoError(f)).0.code == ERR_ACCOUNT_NOT_FOUND.code
    ensures Is(RepoError(f), ERR_ACCOUNT_NOT_FOUND) <==>
      f.NoRowsAffected? || (f.ReadFault? && Is(f.driver, ERR_NO_ROWS))
    ensures Is(RepoError(f), ERR_ACCOUNT_ALREADY_EXISTS) <==>
      FromError(RepoError(f)).0.code == ERR_ACCOUNT_ALREADY_EXISTS.code
    ensures Is(RepoError(f), ERR_ACCOUNT_ALREADY_EXISTS) <==>
      f.WriteFault? && Is(f.driver, ERR_UNIQUE_VIOLATION)
  {
    var e := RepoError(f);
    if f.CacheFault? {
      ForeignMatchesNoSentinel(e, ERR_ACCOUNT_NOT_FOUND);
    }
    assert SingleApp(e);
    SingleAppIs(e, ERR_ACCOUNT_NOT_FOUND);
    SingleAppIs(e, ERR_ACCOUNT_ALREADY_EXISTS);
  }

  /** The driver's error stays in the chain of what the repository makes of it. */
  lemma RepositoryErrorsKeepCause(f: RepoFault)
    requires !f.NoRowsAffected? && !f.CacheFault?
    ensures Is(RepoError(f), f.driver)
  {
    if f.OperationFault? {
      assert Is(Wrapped(f.what, f.driver), f.driver);
    }
  }

  /** And so they look on both transports: a missing row is 404 and NotFound, a
      unique violation 409 and AlreadyExists, everything else 500 and Internal. */
  lemma RepositoryErrorsRender(f: RepoFault)
    requires ForeignFault(f) && !(f.CacheFault? && HasStatus(f.err))
    ensures var missing := f.NoRowsAffected? || (f.ReadFault? && Is(f.driver, ERR_NO_ROWS));
      var duplicate := f.WriteFault? && Is(f.driver, ERR_UNIQUE_VIOLATION);
      if missing then Renders(RepoError(f), "account_not_found", 404, 5)
      else if duplicate then Renders(RepoError(f), "account_already_exists", 409, 6)
      else Renders(RepoError(f), "internal", 500, 13)
  {
    if f.CacheFault? {
      ForeignMatchesNoSentinel(f.err, ERR_INTERNAL);
    }
  }

  /** How every error of the catalogue looks on both transports. */
  lemma CatalogRenders()
    ensures Renders(ERR_INVALID_REQUEST, "invalid_request", 400, 3)
    ensures Renders(ERR_INVALID_EMAIL, "invalid_email", 400, 3)
    ensures Renders(ERR_INVALID_STATUS, "invalid_status", 400, 3)
    ensures Renders(ERR_WEAK_PASSWORD, "weak_password", 400, 3)
    ensures Renders(ERR_UNAUTHORIZED, "unauthorized", 401, 16)
    ensures Renders(ERR_INVALID_CREDENTIALS, "invalid_credentials", 401, 16)
    ensures Renders(ERR_FORBIDDEN, "forbidden", 403, 7)
    ensures Renders(ERR_ACCOUNT_BLOCKED, "account_blocked", 403, 7)
    ensures Renders(ERR_NOT_FOUND, "not_found", 404, 5)
    ensures Renders(ERR_ACCOUNT_NOT_FOUND, "account_not_found", 404, 5)
    ensures Renders(ERR_ALREADY_EXISTS, "already_exists", 409, 6)
    ensures Renders(ERR_ACCOUNT_ALREADY_EXISTS, "account_already_exists", 409, 6)
    ensures Renders(ERR_CONFLICT, "conflict", 409, 10)
    ensures Renders(ERR_TOO_MANY_REQUESTS, "too_many_requests", 429, 8)
    ensures Renders(ERR_INTERNAL, "internal", 500, 13)
  {
  }
}
