/** The account entity, its partial-update parameters and the cache keys derived
    from it. Time is an integer count of some fixed unit; strings are sequences
    of characters and lower-casing acts on the letters A to Z. */
module Domain {
  type Time = int

  datatype Option<+T> = None | Some(value: T) {
    function GetOr(default: T): T {
      match this
      case Some(v) => v
      case None => default
    }
  }

  datatype Result<+T, +E> = Success(value: T) | Failure(error: E)

  datatype Account = Account(
    id: string,
    email: string,
    firstName: string,
    lastName: string,
    passwordHash: string,
    status: int,
    createdAt: Time,
    updatedAt: Time,
    deletedAt: Option<Time>)

  /** A partial update; None leaves the column as it is. */
  datatype UpdateParams = UpdateParams(
    id: string,
    firstName: Option<string>,
    lastName: Option<string>,
    status: Option<int>,
    updatedAt: Time)

  const STATUS_ACTIVE := 1
  const STATUS_DELETED := 4

  predicate ValidStatus(status: int) {
    STATUS_ACTIVE <= status <= STATUS_DELETED
  }

  function LowerChar(c: char): char {
    if 'A' <= c <= 'Z' then (c as int + 32) as char else c
  }

  function Lower(s: string): string {
    seq(|s|, i requires 0 <= i < |s| => LowerChar(s[i]))
  }

  function IdKey(id: string): string {
    "account:id:" + id
  }

  function EmailKey(email: string): string {
    "account:email:" + Lower(email)
  }

  /** The two single-row reads of the repository port. */
  datatype Query = ById(id: string) | ByEmail(email: string)

  function Key(q: Query): string {
    match q
    case ById(id) => IdKey(id)
    case ByEmail(email) => EmailKey(email)
  }

  /** Two characters that are the same letter, whatever their case. */
  predicate SameLetter(c: char, d: char) {
    || c == d
    || ('A' <= c <= 'Z' && d as int == c as int + 32)
    || ('A' <= d <= 'Z' && c as int == d as int + 32)
  }

  predicate SameUpToCase(a: string, b: string) {
    |a| == |b| && forall i :: 0 <= i < |a| ==> SameLetter(a[i], b[i])
  }

  /** The row `a` is an answer to `q`, an email being read up to letter case. */
  predicate Answers(a: Account, q: Query) {
    match q
    case ById(id) => a.id == id
    case ByEmail(email) => SameUpToCase(a.email, email)
  }

  lemma LowerIdentifies(a: string, b: string)
    ensures Lower(a) == Lower(b) <==> SameUpToCase(a, b)
  {
    if Lower(a) == Lower(b) {
      assert |a| == |Lower(a)| == |b|;
      forall i | 0 <= i < |a| ensures SameLetter(a[i], b[i]) {
        assert Lower(a)[i] == LowerChar(a[i]) && Lower(b)[i] == LowerChar(b[i]);
      }
    }
  }

  lemma IdKeyInjective(a: string, b: string)
    ensures IdKey(a) == IdKey(b) <==> a == b
  {
    assert IdKey(a)[11..] == a && IdKey(b)[11..] == b;
  }

  lemma EmailKeyCollides(a: string, b: string)
    ensures EmailKey(a) == EmailKey(b) <==> SameUpToCase(a, b)
  {
    assert EmailKey(a)[14..] == Lower(a) && EmailKey(b)[14..] == Lower(b);
    LowerIdentifies(a, b);
  }

  lemma KeyFamiliesDisjoint(id: string, email: string)
    ensures IdKey(id) != EmailKey(email)
  {
    assert IdKey(id)[8] == 'i' && EmailKey(email)[8] == 'e';
  }

  /** Which requests share a cache entry: two reads meet under one key exactly
      when they ask for the same id, or for emails equal up to letter case. */
  lemma KeySharing(p: Query, q: Query)
    ensures Key(p) == Key(q) <==>
      match (p, q)
      case (ById(a), ById(b)) => a == b
      case (ByEmail(a), ByEmail(b)) => SameUpToCase(a, b)
      case _ => false
  {
    match (p, q)
    case (ById(a), ById(b)) => IdKeyInjective(a, b);
    case (ByEmail(a), ByEmail(b)) => EmailKeyCollides(a, b);
    case (ById(a), ByEmail(b)) => KeyFamiliesDisjoint(a, b);
    case (ByEmail(a), ById(b)) => KeyFamiliesDisjoint(b, a);
  }

  /** A row cached under the key of a request it answers exactly is, for every
      request with that key, an answer up to letter case. */
  lemma SharedKeyAnswers(a: Account, q: Query)
    requires Key(q) == IdKey(a.id) || Key(q) == EmailKey(a.email)
    ensures Answers(a, q)
  {
    KeySharing(ById(a.id), q);
    KeySharing(ByEmail(a.email), q);
  }

  /** Every key the entity derives: the id key and, when it has an email, the
      email key. */
  function CacheKeys(a: Account): (keys: seq<string>) {
    [IdKey(a.id)] + if a.email != "" then [EmailKey(a.email)] else []
  }

  /** The derived keys are exactly those of the reads this row answers, an
      account without email having no email key; no key is listed twice. */
  lemma CacheKeysCover(a: Account, q: Query)
    ensures Key(q) in CacheKeys(a) <==>
      Answers(a, q) && (q.ByEmail? ==> a.email != "")
    ensures CacheKeys(a)[0] == Key(ById(a.id))
    ensures forall i, j :: 0 <= i < j < |CacheKeys(a)| ==> CacheKeys(a)[i] != CacheKeys(a)[j]
  {
    KeySharing(ById(a.id), q);
    KeySharing(ByEmail(a.email), q);
    KeyFamiliesDisjoint(a.id, a.email);
  }
}
