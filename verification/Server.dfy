/** The ingest endpoint: which posts are refused, replayed or dispatched. */
module Server {
  import D = Dedupe
  import opened Wrappers

  /** The parts of an alert its key is derived from. */
  datatype Alert = Alert(streamId: int, tsNs: int, layer: string, detail: string)

  /** A request; `alert` is None when the body is not JSON of an alert. An absent
      Idempotency-Key header reads as "". */
  datatype Request = Request(isPost: bool, readable: bool, alert: Option<Alert>, keyHeader: string)

  datatype Response = Refused(status: nat) | Answered(status: nat, deliveryId: string, duplicate: bool)

  /** Digests are not computed here: any functions will do. */
  datatype Digests = Digests(deriveKey: Alert -> string, deliveryId: string -> string)

  predicate Acceptable(r: Request) {
    r.isPost && r.readable && r.alert.Some? && r.alert.value.layer != ""
  }

  class Server {
    const digests: Digests
    const dedupe: D.Dedupe<string, string>
    var accepted: nat
    var duplicate: nat
    var dispatched: seq<string>  // keys handed to a delivery goroutine

    ghost predicate Valid()
      reads this, dedupe
    {
      && dedupe.Valid()
      && accepted == |dispatched| == |dedupe.Log|
      && (forall i :: 0 <= i < |dispatched| ==> Issued(dedupe.Log[i], dispatched[i]))
    }

    /** An acceptance: the key dispatched, and the id the caller was given. */
    ghost predicate Issued(e: D.Entry<string, string>, key: string) {
      e.key == key && e.id == digests.deliveryId(key)
    }

    constructor (digests: Digests, dedupe: D.Dedupe<string, string>)
      requires dedupe.Valid() && dedupe.Log == []
      ensures Valid() && this.digests == digests && this.dedupe == dedupe && dispatched == []
    {
      this.digests, this.dedupe := digests, dedupe;
      accepted, duplicate, dispatched := 0, 0, [];
    }

    /** A bad request changes nothing; a key still remembered is answered with the id it was
        first given and not dispatched; any other is accepted and dispatched once. */
    method HandleAlerts(r: Request) returns (response: Response)
      requires Valid()
      modifies this`accepted, this`duplicate, this`dispatched, dedupe
      ensures Valid()
      ensures !Acceptable(r) ==>
        && response == Refused(if r.isPost then 400 else 405)
        && dispatched == old(dispatched) && duplicate == old(duplicate) && dedupe.Log == old(dedupe.Log)
      ensures Acceptable(r) ==>
        var key := if r.keyHeader != "" then r.keyHeader else digests.deriveKey(r.alert.value);
        var known := old(D.Remembers(dedupe.Log, dedupe.max, key));
        && response == Answered(if known then 200 else 202, digests.deliveryId(key), known)
        && dispatched == (if known then old(dispatched) else old(dispatched) + [key])
        && duplicate == old(duplicate) + (if known then 1 else 0)
    {
      if !r.isPost {
        return Refused(405);
      }
      if !r.readable || r.alert.None? || r.alert.value.layer == "" {
        return Refused(400);
      }
      var key := r.keyHeader;
      if key == "" {
        key := digests.deriveKey(r.alert.value);
      }
      var id, known := dedupe.Check(key, digests.deliveryId(key));
      if known {
        duplicate := duplicate + 1;
        ghost var i :| 0 <= i < |dedupe.Log| && dedupe.Log[i] == D.Entry(key, id);
        assert Issued(dedupe.Log[i], dispatched[i]);
        return Answered(200, id, true);
      }
      accepted := accepted + 1;
      dispatched := dispatched + [key];
      return Answered(202, id, false);
    }

    /** Whatever was posted, equal keys were dispatched more than `max` acceptances apart. */
    lemma DispatchesAreSpread(i: nat, j: nat)
      requires Valid() && i < j < |dispatched| && dispatched[i] == dispatched[j]
      ensures j - i > dedupe.max
    {
      assert Issued(dedupe.Log[i], dispatched[i]) && Issued(dedupe.Log[j], dispatched[j]);
    }
  }
}
