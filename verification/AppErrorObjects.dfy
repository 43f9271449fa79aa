/** AppError as the mutable object it is in memory: a record that points to a
    metadata map. Deriving copies the record and the map before assigning, so no
    method below has a modifies clause: nothing that existed before is changed. */
module AppErrorObjects {
  import opened Domain
  import opened AppErrors

  class Metadata {
    var entries: map<string, string>

    constructor ()
      ensures entries == map[]
    {
      entries := map[];
    }
  }

  class AppError {
    const code: string
    var message: string
    const httpStatus: int
    const grpcCode: int
    var cause: Option<Err>
    var meta: Metadata?

    constructor New(code: string, message: string, httpStatus: int, grpcCode: int)
      ensures meta == null
      ensures Value() == AppErrors.New(code, message, httpStatus, grpcCode)
    {
      this.code, this.message := code, message;
      this.httpStatus, this.grpcCode := httpStatus, grpcCode;
      cause, meta := None, null;
    }

    constructor Copy(e: AppError, meta: Metadata)
      ensures this.meta == meta
      ensures Value() == (var v := e.Value(); v.(meta := meta.entries))
    {
      code, message := e.code, e.message;
      httpStatus, grpcCode := e.httpStatus, e.grpcCode;
      cause := e.cause;
      this.meta := meta;
    }

    ghost function Entries(): map<string, string>
      reads this, meta
    {
      if meta == null then map[] else meta.entries
    }

    /** What errors.Is, FromError and the transports see of this object. */
    ghost function Value(): (v: Err)
      reads this, meta
      ensures v.App?
    {
      App(code, message, httpStatus, grpcCode, cause, Entries())
    }

    method Metadata() returns (out: Metadata)
      ensures fresh(out) && out.entries == Entries()
    {
      out := new Metadata();
      if meta != null {
        var todo := meta.entries.Keys;
        while todo != {}
          invariant fresh(out) && todo <= meta.entries.Keys
          invariant out.entries.Keys == meta.entries.Keys - todo
          invariant forall k :: k in out.entries ==> out.entries[k] == meta.entries[k]
          decreases todo
        {
          var k :| k in todo;
          out.entries := out.entries[k := meta.entries[k]];
          todo := todo - {k};
        }
      }
    }

    method Clone() returns (c: AppError)
      ensures fresh(c) && c.meta != null && fresh(c.meta)
      ensures c.Value() == Value()
      ensures c.message == message && c.cause == cause && c.meta.entries == Entries()
      ensures c.code == code && c.httpStatus == httpStatus && c.grpcCode == grpcCode
    {
      var m := Metadata();
      c := new AppError.Copy(this, m);
    }

    method Cause(err: Err) returns (c: AppError)
      ensures fresh(c) && c.meta != null && fresh(c.meta)
      ensures c.Value() == Derive(Value(), ByCause(err))
      ensures c.cause == Some(err) && c.message == message && c.meta.entries == Entries()
    {
      c := Clone();
      c.cause := Some(err);
    }

    method WithMessage(message: string) returns (c: AppError)
      ensures fresh(c) && c.meta != null && fresh(c.meta)
      ensures c.Value() == Derive(Value(), ByMessage(message))
      ensures c.message == message && c.cause == cause && c.meta.entries == Entries()
    {
      c := Clone();
      c.message := message;
    }

    method WithMetadata(key: string, value: string) returns (c: AppError)
      ensures fresh(c) && c.meta != null && fresh(c.meta)
      ensures c.Value() == Derive(Value(), ByMetadata(key, value))
      ensures c.message == message && c.cause == cause && c.meta.entries == Entries()[key := value]
    {
      c := Clone();
      assert c.meta != null;  // Clone always allocates a map: the nil guard is dead
      c.meta.entries := c.meta.entries[key := value];
    }
  }

  /** Any chain of derivations started from one object: the result is the chain's
      value, shares no memory with what existed before, and the base still has
      the value and the metadata object it had. */
  method DeriveChain(base: AppError, ds: seq<Derivation>) returns (r: AppError)
    ensures r.Value() == DeriveAll(base.Value(), ds)
    ensures if ds == [] then r == base else fresh(r) && r.meta != null && fresh(r.meta)
    ensures base.Value() == old(base.Value()) && base.meta == old(base.meta)
    ensures r.code == base.code && r.httpStatus == base.httpStatus && r.grpcCode == base.grpcCode
    ensures Is(r.Value(), base.Value())
  {
    r := base;
    for i := 0 to |ds|
      invariant r.Value() == DeriveAll(base.Value(), ds[..i])
      invariant if i == 0 then r == base else fresh(r) && r.meta != null && fresh(r.meta)
    {
      DeriveAllSnoc(base.Value(), ds[..i], ds[i]);
      assert ds[..i + 1] == ds[..i] + [ds[i]];
      match ds[i] {
        case ByCause(err) => r := r.Cause(err);
        case ByMessage(message) => r := r.WithMessage(message);
        case ByMetadata(key, value) => r := r.WithMetadata(key, value);
      }
    }
    assert ds[..|ds|] == ds;
    DerivedKeepsIdentity(base.Value(), ds);
  }
}
