/** The notary store (data/notary_db.py): records kept as JSON under
    `notary_<id>`, where the id is the sorted-keys hash of the record. A
    record may carry an expiry instant. Expired records are deleted when
    read and skipped when listed. Instants are whole seconds; the
    ISO 8601 text the source stores is written here as the instant it
    denotes. */
module NotaryStore {
  import opened Base
  import opened Assoc
  import opened Text
  import opened Json
  import opened Crypto
  import opened DataUtils

  const KeyPrefix: string := "notary_"

  /** The store key of a record id. */
  function RecordKey(recordId: string): (r: string)
    ensures |r| == |KeyPrefix| + |recordId|
    ensures StartsWith(r, KeyPrefix) && r[|KeyPrefix|..] == recordId
  {
    KeyPrefix + recordId
  }

  /** The most days a `timedelta` holds either way. */
  const MaxTimedeltaDays: int := 999_999_999

  /** The instants `datetime` represents, in seconds from
      1970-01-01T00:00:00: 0001-01-01T00:00:00 to 9999-12-31T23:59:59. */
  const MinInstant: int := -62_135_596_800
  const MaxInstant: int := 253_402_300_799

  /** `now + timedelta(minutes=minutes)`: OverflowError when the
      `timedelta` itself would exceed its days bound, and when the sum
      leaves the `datetime` range. */
  function AddMinutes(now: int, minutes: int): (r: Result<int>)
    ensures r.Ok? ==> r.value == now + 60 * minutes && MinInstant <= r.value <= MaxInstant
    ensures r.Err? ==> r.error.OverflowError?
    ensures r.Err? <==> (60 * minutes) / 86400 > MaxTimedeltaDays || (60 * minutes) / 86400 < -MaxTimedeltaDays
                        || now + 60 * minutes < MinInstant || now + 60 * minutes > MaxInstant
  {
    var days := (60 * minutes) / 86400;
    if days > MaxTimedeltaDays || days < -MaxTimedeltaDays then
      Err(OverflowError("days must have magnitude <= 999999999"))
    else if now + 60 * minutes < MinInstant || now + 60 * minutes > MaxInstant then
      Err(OverflowError("date value out of range"))
    else Ok(now + 60 * minutes)
  }

  /** For a clock reading `datetime` represents, only the range of the sum
      decides: a sum in range is always a `timedelta` in range. */
  lemma ClockInRangeAddMinutes(now: int, minutes: int)
    requires MinInstant <= now <= MaxInstant
    ensures AddMinutes(now, minutes).Ok? <==> MinInstant <= now + 60 * minutes <= MaxInstant
  {
    if MinInstant <= now + 60 * minutes <= MaxInstant {
      assert -315_537_897_599 <= 60 * minutes <= 315_537_897_599;
      assert -3_652_060 <= (60 * minutes) / 86400 <= 3_652_059;
    }
  }

  /** From 1440 * 10^9 minutes on, `timedelta(minutes=m)` raises whatever the
      clock reads. */
  lemma HugeLifetimeOverflows(now: int, minutes: int)
    requires minutes >= 1440 * 1_000_000_000
    ensures AddMinutes(now, minutes) == Err(OverflowError("days must have magnitude <= 999999999"))
  {
    assert 60 * minutes >= 86400 * 1_000_000_000;
  }

  /** The record `save_notary_record` builds: content, signature and the
      time of the first clock read; with a positive lifetime also
      `expires_at`, the second clock read plus that many minutes, computed
      first, whose OverflowError propagates. */
  function NotaryRecord(content: Json, signature: Json, expirationMinutes: int, now1: int, now2: int): (r: Result<Json>)
    ensures r.Ok? <==> expirationMinutes <= 0 || AddMinutes(now2, expirationMinutes).Ok?
    ensures r.Err? ==> r == Err(AddMinutes(now2, expirationMinutes).error)
    ensures r.Ok? ==> r.value.JObj? && UniqueKeys(r.value.entries)
    ensures r.Ok? ==> ToMap(r.value.entries).Keys == if expirationMinutes > 0 then {"content", "signature", "timestamp", "expires_at"}
                                                    else {"content", "signature", "timestamp"}
    ensures r.Ok? ==> ToMap(r.value.entries)["content"] == content && ToMap(r.value.entries)["signature"] == signature
    ensures r.Ok? ==> ToMap(r.value.entries)["timestamp"] == JInt(now1)
    ensures r.Ok? && expirationMinutes > 0 ==> ToMap(r.value.entries)["expires_at"] == JInt(now2 + 60 * expirationMinutes)
  {
    var c, g, t := ("content", content), ("signature", signature), ("timestamp", JInt(now1));
    if expirationMinutes > 0 then
      var expiry :- AddMinutes(now2, expirationMinutes);
      var e := ("expires_at", JInt(expiry));
      var full := [c, g, t, e];
      ToMapFour(c, g, t, e);
      assert ToMap(full) == map["content" := content, "signature" := signature, "timestamp" := JInt(now1),
                                "expires_at" := e.1];
      Ok(JObj(full))
    else
      var base := [c, g, t];
      ToMapThree(c, g, t);
      assert ToMap(base) == map["content" := content, "signature" := signature, "timestamp" := JInt(now1)];
      Ok(JObj(base))
  }

  /** A stored record as the store keeps it: a dict whose expiry, if any, is
      an instant. */
  ghost predicate WellFormed(record: Json)
  {
    record.JObj? && ("expires_at" in ToMap(record.entries) ==> ToMap(record.entries)["expires_at"].JInt?)
  }

  /** Expiry is strict: a record is expired once the clock is past its
      `expires_at`, not at it. Only well-formed records are ever stored, so
      an expiry that is not an instant does not arise. */
  predicate Expired(record: Json, now: int)
  {
    && record.JObj? && "expires_at" in ToMap(record.entries) && ToMap(record.entries)["expires_at"].JInt?
    && now > ToMap(record.entries)["expires_at"].i
  }

  /** What `list_notary_records(include_expired)` collects, in cursor order:
      the records under `notary_` keys, less the expired ones unless asked. */
  function Listed(s: seq<(string, Json)>, includeExpired: bool, now: int): (r: seq<Json>)
    ensures |r| <= |s|
  {
    if s == [] then []
    else
      (if StartsWith(s[0].0, KeyPrefix) && (includeExpired || !Expired(s[0].1, now)) then [s[0].1] else [])
      + Listed(s[1..], includeExpired, now)
  }

  /** One step of the cursor: the entry, if listed, then the rest. */
  lemma ListedStep(s: seq<(string, Json)>, i: nat, includeExpired: bool, now: int)
    requires i < |s|
    ensures Listed(s[i..], includeExpired, now)
         == (if StartsWith(s[i].0, KeyPrefix) && (includeExpired || !Expired(s[i].1, now)) then [s[i].1] else [])
            + Listed(s[i + 1..], includeExpired, now)
  {
    assert s[i..][0] == s[i] && s[i..][1..] == s[i + 1..];
  }

  /** Without expired records, nothing listed is expired. */
  lemma {:induction false} ListedUnexpired(s: seq<(string, Json)>, now: int)
    requires forall i | 0 <= i < |s| :: WellFormed(s[i].1)
    ensures forall j | 0 <= j < |Listed(s, false, now)| :: WellFormed(Listed(s, false, now)[j]) && !Expired(Listed(s, false, now)[j], now)
  {
    if s != [] {
      ListedUnexpired(s[1..], now);
      var head := if StartsWith(s[0].0, KeyPrefix) && !Expired(s[0].1, now) then [s[0].1] else [];
      assert Listed(s, false, now) == head + Listed(s[1..], false, now);
    }
  }

  /** The entries under `notary_` keys, in order. */
  function NotaryEntries(s: seq<(string, Json)>): seq<(string, Json)>
  {
    if s == [] then []
    else (if StartsWith(s[0].0, KeyPrefix) then [s[0]] else []) + NotaryEntries(s[1..])
  }

  /** The records of `rs` that are not expired at `now`, in order. */
  function Unexpired(rs: seq<Json>, now: int): (r: seq<Json>)
    ensures |r| <= |rs|
  {
    if rs == [] then []
    else (if !Expired(rs[0], now) then [rs[0]] else []) + Unexpired(rs[1..], now)
  }

  lemma {:induction false} UnexpiredAppend(a: seq<Json>, b: seq<Json>, now: int)
    ensures Unexpired(a + b, now) == Unexpired(a, now) + Unexpired(b, now)
  {
    if a == [] {
      assert a + b == b;
    } else {
      assert (a + b)[0] == a[0] && (a + b)[1..] == a[1..] + b;
      UnexpiredAppend(a[1..], b, now);
    }
  }

  /** Asking for expired records too lists exactly the records under
      `notary_` keys, in cursor order. */
  lemma {:induction false} ListedAll(s: seq<(string, Json)>, now: int)
    ensures Listed(s, true, now) == Values(NotaryEntries(s))
  {
    if s != [] {
      ListedAll(s[1..], now);
      var head := if StartsWith(s[0].0, KeyPrefix) then [s[0]] else [];
      assert Values(head + NotaryEntries(s[1..])) == Values(head) + Values(NotaryEntries(s[1..]));
    }
  }

  /** Without expired records the listing is the full one less its expired
      records. */
  lemma {:induction false} ListedWithoutExpired(s: seq<(string, Json)>, now: int)
    ensures Listed(s, false, now) == Unexpired(Listed(s, true, now), now)
  {
    if s != [] {
      ListedWithoutExpired(s[1..], now);
      var head := if StartsWith(s[0].0, KeyPrefix) then [s[0].1] else [];
      UnexpiredAppend(head, Listed(s[1..], true, now), now);
    }
  }

  /** Asking for expired records too lists exactly the records under
      `notary_` keys, in cursor order; without them the list is that one
      less its expired records, so never longer. */
  lemma ListedIncludesExpired(s: seq<(string, Json)>, now: int)
    ensures Listed(s, true, now) == Values(NotaryEntries(s))
    ensures Listed(s, false, now) == Unexpired(Listed(s, true, now), now)
    ensures |Listed(s, false, now)| <= |Listed(s, true, now)|
    ensures (forall i | 0 <= i < |s| :: StartsWith(s[i].0, KeyPrefix)) ==> Listed(s, true, now) == Values(s)
  {
    ListedAll(s, now);
    ListedWithoutExpired(s, now);
    if forall i | 0 <= i < |s| :: StartsWith(s[i].0, KeyPrefix) {
      AllNotaryEntries(s);
    }
  }

  lemma {:induction false} AllNotaryEntries(s: seq<(string, Json)>)
    requires forall i | 0 <= i < |s| :: StartsWith(s[i].0, KeyPrefix)
    ensures NotaryEntries(s) == s
  {
    if s != [] {
      assert forall i | 0 <= i < |s[1..]| :: s[1..][i] == s[i + 1];
      AllNotaryEntries(s[1..]);
    }
  }

  /** A `NotaryDB` and its environment. */
  class NotaryDB {
    const prims: Primitives
    var env: seq<(string, Json)>

    ghost predicate Valid()
      reads this
    {
      StrictlySorted(env) && forall i | 0 <= i < |env| :: WellFormed(env[i].1)
    }

    /** `NotaryDB()`: a fresh, empty environment. */
    constructor(p: Primitives)
      ensures Valid() && prims == p && env == []
    {
      prims := p;
      env := [];
    }

    /** `save_notary_record(content, signature, expiration_minutes)`: store
        the record under `notary_<id>` and return the id. `now1` and `now2`
        are the two clock reads. OverflowError when the expiry is out of
        range, TypeError when the content or the signature cannot be
        serialised, and then nothing is stored. */
    method SaveNotaryRecord(content: Json, signature: Json, expirationMinutes: int, now1: int, now2: int)
      returns (r: Result<string>)
      requires Valid()
      modifies this
      ensures Valid()
      ensures var record := NotaryRecord(content, signature, expirationMinutes, now1, now2);
        && (record.Err? ==> r == Err(record.error) && env == old(env))
        && (record.Ok? ==> r == HashTransaction(prims, record.value))
        && (r.Ok? ==> env == Put(old(env), RecordKey(r.value), record.value))
        && (r.Err? ==> env == old(env))
    {
      var record := NotaryRecord(content, signature, expirationMinutes, now1, now2);
      if record.Err? {
        return Err(record.error);
      }
      r := HashTransaction(prims, record.value);
      if r.Ok? {
        PutSorted(env, RecordKey(r.value), record.value);
        PutValues(env, RecordKey(r.value), record.value);
        env := Put(env, RecordKey(r.value), record.value);
      }
    }

    /** `get_notary_record(record_id)`: None for an absent id; an expired
        record is deleted and None returned; any other record is returned and
        the store is left as it was. */
    method GetNotaryRecord(recordId: string, now: int) returns (r: Option<Json>)
      requires Valid()
      modifies this
      ensures Valid()
      ensures RecordKey(recordId) !in ToMap(old(env)) ==> r.None? && env == old(env)
      ensures RecordKey(recordId) in ToMap(old(env)) ==>
        var record := ToMap(old(env))[RecordKey(recordId)];
        WellFormed(record)
        && (Expired(record, now) ==> r.None? && env == Remove(old(env), RecordKey(recordId))
                                     && ToMap(env) == ToMap(old(env)) - {RecordKey(recordId)})
        && (!Expired(record, now) ==> r == Some(record) && env == old(env))
    {
      var key := RecordKey(recordId);
      var found := Get(env, key);
      if found.None? {
        return None;
      }
      var record := found.value;
      StoredWellFormed(env, key);
      if Expired(record, now) {
        var _ := DeleteNotaryRecord(recordId);
        return None;
      }
      return Some(record);
    }

    /** `list_notary_records(include_expired)`: a cursor scan. */
    method ListNotaryRecords(includeExpired: bool, now: int) returns (r: seq<Json>)
      requires Valid()
      ensures r == Listed(env, includeExpired, now)
    {
      r := [];
      var i := 0;
      while i < |env|
        invariant 0 <= i <= |env|
        invariant Listed(env, includeExpired, now) == r + Listed(env[i..], includeExpired, now)
      {
        ListedStep(env, i, includeExpired, now);
        var head := if StartsWith(env[i].0, KeyPrefix) && (includeExpired || !Expired(env[i].1, now)) then [env[i].1] else [];
        assert r + head + Listed(env[i + 1..], includeExpired, now) == r + (head + Listed(env[i + 1..], includeExpired, now));
        r := r + head;
        i := i + 1;
      }
    }

    /** `delete_notary_record(record_id)`: True iff the key was there; only
        that key goes. */
    method DeleteNotaryRecord(recordId: string) returns (deleted: bool)
      requires Valid()
      modifies this
      ensures Valid()
      ensures deleted <==> RecordKey(recordId) in ToMap(old(env))
      ensures env == Remove(old(env), RecordKey(recordId))
      ensures ToMap(env) == ToMap(old(env)) - {RecordKey(recordId)}
    {
      var key := RecordKey(recordId);
      deleted := Get(env, key).Some?;
      RemoveSpec(env, key);
      RemoveValues(env, key);
      env := Remove(env, key);
    }
  }

  /** Every value a well-formed store holds is well formed. */
  lemma {:induction false} StoredWellFormed(s: seq<(string, Json)>, k: string)
    requires forall i | 0 <= i < |s| :: WellFormed(s[i].1)
    requires k in ToMap(s)
    ensures WellFormed(ToMap(s)[k])
  {
    if s[0].0 != k {
      assert forall i | 0 <= i < |s[1..]| :: s[1..][i] == s[i + 1];
      StoredWellFormed(s[1..], k);
    }
  }

  /** Putting a well-formed record keeps every stored record well formed. */
  lemma {:induction false} PutValues(s: seq<(string, Json)>, k: string, v: Json)
    requires forall i | 0 <= i < |s| :: WellFormed(s[i].1)
    requires WellFormed(v)
    ensures forall i | 0 <= i < |Put(s, k, v)| :: WellFormed(Put(s, k, v)[i].1)
  {
    if s != [] && s[0].0 != k && !Lt(k, s[0].0) {
      PutValues(s[1..], k, v);
      assert forall i | 0 <= i < |Put(s[1..], k, v)| :: Put(s, k, v)[i + 1] == Put(s[1..], k, v)[i];
    }
  }

  /** Removing a key keeps every stored record well formed. */
  lemma {:induction false} RemoveValues(s: seq<(string, Json)>, k: string)
    requires forall i | 0 <= i < |s| :: WellFormed(s[i].1)
    ensures forall i | 0 <= i < |Remove(s, k)| :: WellFormed(Remove(s, k)[i].1)
  {
    if s != [] && s[0].0 != k {
      RemoveValues(s[1..], k);
      assert forall i | 0 <= i < |Remove(s[1..], k)| :: Remove(s, k)[i + 1] == Remove(s[1..], k)[i];
    }
  }

  /** A record without a lifetime never expires: it is read back at any
      later time. */
  lemma NoLifetimeNeverExpires(content: Json, signature: Json, expirationMinutes: int, now1: int, now2: int, now: int)
    requires expirationMinutes <= 0
    ensures NotaryRecord(content, signature, expirationMinutes, now1, now2).Ok?
    ensures WellFormed(NotaryRecord(content, signature, expirationMinutes, now1, now2).value)
    ensures !Expired(NotaryRecord(content, signature, expirationMinutes, now1, now2).value, now)
  {
  }

  /** A record with a lifetime is built exactly when its expiry is in
      range; it is then readable up to and including its expiry instant,
      and expired from the next second on. */
  lemma ExpiryBoundary(content: Json, signature: Json, expirationMinutes: int, now1: int, now2: int)
    requires expirationMinutes > 0
    ensures NotaryRecord(content, signature, expirationMinutes, now1, now2).Ok? <==> AddMinutes(now2, expirationMinutes).Ok?
    ensures var record := NotaryRecord(content, signature, expirationMinutes, now1, now2);
      record.Ok? ==>
      && WellFormed(record.value)
      && !Expired(record.value, now2 + 60 * expirationMinutes)
      && Expired(record.value, now2 + 60 * expirationMinutes + 1)
  {
  }
}
