/** The notary front end (data/notary_interface.py): registering records,
    anchoring a transaction id with an expiry, and reading a record back, all
    against one notary store. The module-level store the source opens at
    import is passed in as `db`. `save_notary_record` is called without its
    `signature` argument; the model passes None for it. */
module NotaryInterface {
  import opened Base
  import opened Assoc
  import opened Json
  import opened Crypto
  import opened DataUtils
  import opened NotaryStore

  /** `register_notary_record(record)`: save the record with no signature
      and no lifetime; `now` is the save's clock read. */
  method RegisterNotaryRecord(db: NotaryDB, record: Json, now: int) returns (r: Result<()>)
    requires db.Valid()
    modifies db
    ensures db.Valid()
    ensures var stored := NotaryRecord(record, JNull, 0, now, now).value;
      && (r.Ok? <==> HashTransaction(db.prims, stored).Ok?)
      && (r.Ok? ==> db.env == Put(old(db.env), RecordKey(HashTransaction(db.prims, stored).value), stored))
      && (r.Err? ==> db.env == old(db.env))
  {
    var id := db.SaveNotaryRecord(record, JNull, 0, now, now);
    if id.Err? {
      return Err(id.error);
    }
    return Ok(());
  }

  /** The anchor record: the id, the time of the second clock read as
      `anchored_at`, and the first clock read plus the window in minutes as
      `expires_at`. The expiry is computed first; its OverflowError
      propagates. */
  function AnchorRecord(txId: Json, cancellationWindow: int, now1: int, now2: int): (r: Result<Json>)
    ensures r.Ok? <==> AddMinutes(now1, cancellationWindow).Ok?
    ensures r.Err? ==> r == Err(AddMinutes(now1, cancellationWindow).error)
    ensures r.Ok? ==> r.value.JObj? && UniqueKeys(r.value.entries)
    ensures r.Ok? ==> ToMap(r.value.entries).Keys == {"tx_id", "anchored_at", "expires_at"}
    ensures r.Ok? ==> ToMap(r.value.entries)["tx_id"] == txId
    ensures r.Ok? ==> ToMap(r.value.entries)["anchored_at"] == JInt(now2)
    ensures r.Ok? ==> ToMap(r.value.entries)["expires_at"] == JInt(now1 + 60 * cancellationWindow)
  {
    var expiry :- AddMinutes(now1, cancellationWindow);
    var a, b, c := ("tx_id", txId), ("anchored_at", JInt(now2)), ("expires_at", JInt(expiry));
    var rec := [a, b, c];
    assert rec[1..] == [b, c] && [b, c][1..] == [c] && [c][1..] == [];
    assert ToMap([c]) == map[c.0 := c.1];
    assert ToMap([b, c]) == ToMap([c])[b.0 := b.1];
    Ok(JObj(rec))
  }

  /** The expiry is taken before the anchoring time, so an anchor never
      outlives its window measured from `anchored_at`. */
  lemma AnchorWithinWindow(txId: Json, cancellationWindow: int, now1: int, now2: int)
    requires now1 <= now2
    ensures var a := AnchorRecord(txId, cancellationWindow, now1, now2);
      a.Ok? ==> ToMap(a.value.entries)["expires_at"].i - ToMap(a.value.entries)["anchored_at"].i <= 60 * cancellationWindow
  {
  }

  /** `anchor_transaction(tx_id, cancellation_window)`: build the anchor
      record (clock reads `now1`, `now2`) and save it as a record's content,
      with no signature and no lifetime (clock read `now3`). An expiry out of
      range raises OverflowError before anything is saved. */
  method AnchorTransaction(db: NotaryDB, txId: Json, cancellationWindow: int, now1: int, now2: int, now3: int)
    returns (r: Result<()>)
    requires db.Valid()
    modifies db
    ensures db.Valid()
    ensures var anchor := AnchorRecord(txId, cancellationWindow, now1, now2);
      anchor.Err? ==> r == Err(anchor.error)
    ensures var anchor := AnchorRecord(txId, cancellationWindow, now1, now2);
      anchor.Ok? ==>
      var stored := NotaryRecord(anchor.value, JNull, 0, now3, now3).value;
      && (r.Ok? <==> Serializable(txId))
      && (r.Ok? ==> HashTransaction(db.prims, stored).Ok?
                    && db.env == Put(old(db.env), RecordKey(HashTransaction(db.prims, stored).value), stored))
    ensures r.Err? ==> db.env == old(db.env)
  {
    var anchor := AnchorRecord(txId, cancellationWindow, now1, now2);
    if anchor.Err? {
      return Err(anchor.error);
    }
    AnchorSerializable(txId, cancellationWindow, now1, now2, now3);
    r := RegisterNotaryRecord(db, anchor.value, now3);
  }

  /** The stored anchor serialises exactly when its id does. */
  lemma AnchorSerializable(txId: Json, cancellationWindow: int, now1: int, now2: int, now3: int)
    ensures var anchor := AnchorRecord(txId, cancellationWindow, now1, now2);
      anchor.Ok? ==> (Serializable(NotaryRecord(anchor.value, JNull, 0, now3, now3).value) <==> Serializable(txId))
  {
    var a := AnchorRecord(txId, cancellationWindow, now1, now2);
    if a.Ok? {
      var anchor := a.value;
      var stored := NotaryRecord(anchor, JNull, 0, now3, now3).value;
      SerializableByMap(anchor.entries);
      SerializableByMap(stored.entries);
      assert ToMap(stored.entries).Keys == {"content", "signature", "timestamp"};
      assert ToMap(anchor.entries).Keys == {"tx_id", "anchored_at", "expires_at"};
    }
  }

  /** `verify_notary_record(record_id)`: exactly the store's read, so None
      for an absent or expired record, which is then deleted. */
  method VerifyNotaryRecord(db: NotaryDB, recordId: string, now: int) returns (r: Option<Json>)
    requires db.Valid()
    modifies db
    ensures db.Valid()
    ensures RecordKey(recordId) !in ToMap(old(db.env)) ==> r.None? && db.env == old(db.env)
    ensures RecordKey(recordId) in ToMap(old(db.env)) ==>
      var record := ToMap(old(db.env))[RecordKey(recordId)];
      WellFormed(record)
      && (Expired(record, now) ==> r.None? && ToMap(db.env) == ToMap(old(db.env)) - {RecordKey(recordId)})
      && (!Expired(record, now) ==> r == Some(record) && db.env == old(db.env))
  {
    r := db.GetNotaryRecord(recordId, now);
  }

  /** The anchor's expiry sits inside the saved record's content, and the
      saved record itself has no lifetime: an anchor that was made reads
      back at any time, however long after its window. */
  method AnchorNeverLapses(db: NotaryDB, txId: string, cancellationWindow: int, now1: int, now2: int, now3: int, later: int)
    returns (r: Option<Json>)
    requires db.Valid()
    requires AnchorRecord(JStr(txId), cancellationWindow, now1, now2).Ok?
    requires later > now1 + 60 * cancellationWindow
    modifies db
    ensures r.Some? && r.value.JObj?
    ensures "content" in ToMap(r.value.entries)
    ensures ToMap(r.value.entries)["content"] == AnchorRecord(JStr(txId), cancellationWindow, now1, now2).value
  {
    var saved := AnchorTransaction(db, JStr(txId), cancellationWindow, now1, now2, now3);
    var anchor := AnchorRecord(JStr(txId), cancellationWindow, now1, now2).value;
    var stored := NotaryRecord(anchor, JNull, 0, now3, now3).value;
    AnchorSerializable(JStr(txId), cancellationWindow, now1, now2, now3);
    var id := HashTransaction(db.prims, stored).value;
    r := VerifyNotaryRecord(db, id, later);
  }
}
