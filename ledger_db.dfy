/** The transaction ledger (data/ledger_db.py): an LMDB environment holding
    each transaction as JSON under the key `family_id`, where the id is the
    content hash. The environment is its list of entries in key order, the
    order its cursor visits them. */
module LedgerStore {
  import opened Base
  import opened Assoc
  import opened Text
  import opened Json
  import opened Crypto
  import opened DataUtils

  /** The field naming a transaction's family. The source reads
      `tx['TX_FAMILY']` while every transaction body it is given carries
      `tx_family`; the model reads the field the bodies carry. */
  const FamilyField: string := "tx_family"

  /** `str(value)` as an f-string writes it: a string as itself, anything
      else as Python prints it. */
  function PyStr(p: Primitives, j: Json): (r: string)
    ensures j.JStr? ==> r == j.s
  {
    if j.JStr? then j.s else p.pyStr(j)
  }

  /** `_generate_tx_id(tx)`: the sorted-keys content hash. */
  function GenerateTxId(p: Primitives, tx: Json): (r: Result<string>)
    ensures r.Ok? <==> Serializable(tx)
    ensures r.Ok? ==> |r.value| == 64
    ensures r == HashTransaction(p, tx)
  {
    HashTransaction(p, tx)
  }

  /** Two dicts that compare equal get the same id, whatever order their
      keys were inserted in. */
  lemma TxIdIgnoresKeyOrder(p: Primitives, d1: seq<(string, Json)>, d2: seq<(string, Json)>)
    requires UniqueKeys(d1) && UniqueKeys(d2) && ToMap(d1) == ToMap(d2)
    ensures GenerateTxId(p, JObj(d1)) == GenerateTxId(p, JObj(d2))
  {
    HashIgnoresKeyOrder(p, d1, d2);
  }

  /** The key `save_transaction` writes under: TypeError for a value that
      cannot be serialised, KeyError when the family field is missing. */
  function TxKey(p: Primitives, tx: Json): (r: Result<string>)
    ensures r.Ok? <==> Serializable(tx) && HasKey(tx, FamilyField)
    ensures r.Ok? ==> r.value == FormatKey(PyStr(p, ToMap(tx.entries)[FamilyField]), GenerateTxId(p, tx).value)
  {
    var id :- GenerateTxId(p, tx);
    var family :- Index(tx, FamilyField);
    Ok(FormatKey(PyStr(p, family), id))
  }

  /** What one cursor entry adds to the balance of `address` in `family`:
      keys outside the family add nothing; a transfer to the address adds the
      amount, otherwise a transfer from it subtracts the amount. A missing
      field raises KeyError, an amount that is not a number TypeError. */
  function Contribution(entry: (string, Json), address: Json, family: string): (r: Result<int>)
    ensures !StartsWith(entry.0, family + "_") ==> r == Ok(0)
  {
    if !StartsWith(entry.0, family + "_") then Ok(0)
    else
      var tx := entry.1;
      var recipient :- Index(tx, "recipient");
      if recipient == address then
        var amount :- Index(tx, "amount");
        match AsInt(amount)
        case Some(a) => Ok(a)
        case None => Err(TypeError("unsupported operand type(s) for +="))
      else
        var sender :- Index(tx, "sender");
        if sender == address then
          var amount :- Index(tx, "amount");
          match AsInt(amount)
          case Some(a) => Ok(-a)
          case None => Err(TypeError("unsupported operand type(s) for -="))
        else Ok(0)
  }

  /** A cursor scan adding up what `f` gives each entry, in order; the first
      entry for which `f` raises decides the error. */
  function Scan(s: seq<(string, Json)>, f: ((string, Json)) -> Result<int>): Result<int>
  {
    if s == [] then Ok(0)
    else
      var c :- f(s[0]);
      var rest :- Scan(s[1..], f);
      Ok(c + rest)
  }

  /** `Contribution` with the address and the family fixed. */
  function ContributionTo(address: Json, family: string): ((string, Json)) -> Result<int>
  {
    e => Contribution(e, address, family)
  }

  /** The balance: the scan of every entry's contribution. */
  function Balance(s: seq<(string, Json)>, address: Json, family: string): Result<int>
  {
    Scan(s, ContributionTo(address, family))
  }

  /** One step of the scan: the entry's value, then the rest. */
  lemma ScanStep(s: seq<(string, Json)>, i: nat, f: ((string, Json)) -> Result<int>)
    requires i < |s|
    ensures Scan(s[i..], f) == if f(s[i]).Err? then Err(f(s[i]).error) else Offset(f(s[i]).value, Scan(s[i + 1..], f))
  {
    assert s[i..][0] == s[i] && s[i..][1..] == s[i + 1..];
  }

  /** The scan of a single entry is that entry's value. */
  lemma ScanSingle(e: (string, Json), f: ((string, Json)) -> Result<int>)
    ensures Scan([e], f) == f(e)
  {
    assert [e][0] == e && [e][1..] == [];
  }

  /** Storing a fresh entry adds exactly its value to the scan, wherever the
      key falls in cursor order. */
  lemma {:induction false} ScanInsert(s: seq<(string, Json)>, k: string, v: Json, f: ((string, Json)) -> Result<int>)
    requires k !in ToMap(s)
    requires Scan(s, f).Ok? && f((k, v)).Ok?
    ensures Scan(Put(s, k, v), f) == Ok(Scan(s, f).value + f((k, v)).value)
  {
    assert s != [] ==> k != s[0].0;
    PutFresh(s, k, v);
    if s == [] || Lt(k, s[0].0) {
      var r := [(k, v)] + s;
      assert r[0] == (k, v) && r[1..] == s;
    } else {
      assert k !in ToMap(s[1..]);
      ScanInsert(s[1..], k, v, f);
      var r := [s[0]] + Put(s[1..], k, v);
      assert r[0] == s[0] && r[1..] == Put(s[1..], k, v);
    }
  }

  /** Storing a fresh entry adds exactly its contribution to the balance. */
  lemma BalanceInsert(s: seq<(string, Json)>, k: string, v: Json, address: Json, family: string)
    requires k !in ToMap(s)
    requires Balance(s, address, family).Ok? && Contribution((k, v), address, family).Ok?
    ensures Balance(Put(s, k, v), address, family)
         == Ok(Balance(s, address, family).value + Contribution((k, v), address, family).value)
  {
    var f := ContributionTo(address, family);
    assert f((k, v)) == Contribution((k, v), address, family);
    ScanInsert(s, k, v, f);
  }

  /** `b + r` when `r` is a result. */
  function Offset(b: int, r: Result<int>): Result<int>
  {
    if r.Ok? then Ok(b + r.value) else r
  }

  /** A self-transfer counts once, as a credit. */
  lemma SelfTransferCredits(k: string, tx: seq<(string, Json)>, address: Json, family: string, amount: int)
    requires StartsWith(k, family + "_")
    requires "recipient" in ToMap(tx) && "sender" in ToMap(tx) && "amount" in ToMap(tx)
    requires ToMap(tx)["recipient"] == address && ToMap(tx)["sender"] == address
    requires ToMap(tx)["amount"] == JInt(amount)
    ensures Contribution((k, JObj(tx)), address, family) == Ok(amount)
  {
  }

  /** A transfer between two other addresses, or a key of another family,
      leaves the balance as it is. */
  lemma UnrelatedContributesNothing(k: string, tx: seq<(string, Json)>, address: Json, family: string)
    requires StartsWith(k, family + "_")
    requires "recipient" in ToMap(tx) && "sender" in ToMap(tx)
    requires ToMap(tx)["recipient"] != address && ToMap(tx)["sender"] != address
    ensures Contribution((k, JObj(tx)), address, family) == Ok(0)
  {
  }

  /** What `get_all_transactions(tx_family)` collects from the entries, in
      order: every value, or those whose key begins with `family_`. */
  function Listed(s: seq<(string, Json)>, family: Option<string>): (r: seq<Json>)
    ensures |r| <= |s|
  {
    if s == [] then []
    else
      (if family.None? || StartsWith(s[0].0, family.value + "_") then [s[0].1] else [])
      + Listed(s[1..], family)
  }

  /** Without a family every stored transaction is listed, in key order. */
  lemma {:induction false} ListedAll(s: seq<(string, Json)>)
    ensures Listed(s, None) == Values(s)
  {
    if s != [] {
      ListedAll(s[1..]);
      assert Values(s) == [s[0].1] + Values(s[1..]);
    }
  }

  /** A fresh entry of the family appears in the family's listing; one of
      another family leaves the listing as it was. */
  lemma {:induction false} ListedInsert(s: seq<(string, Json)>, k: string, v: Json, family: string)
    requires k !in ToMap(s)
    ensures StartsWith(k, family + "_") ==> v in Listed(Put(s, k, v), Some(family))
    ensures !StartsWith(k, family + "_") ==> Listed(Put(s, k, v), Some(family)) == Listed(s, Some(family))
  {
    if s != [] && !Lt(k, s[0].0) {
      assert k != s[0].0;
      assert k !in ToMap(s[1..]);
      ListedInsert(s[1..], k, v, family);
      assert Put(s, k, v)[1..] == Put(s[1..], k, v);
    } else if s != [] {
      assert Put(s, k, v)[1..] == s;
    }
  }

  /** A `LedgerDB` and its environment. */
  class LedgerDB {
    const prims: Primitives
    var env: seq<(string, Json)>

    ghost predicate Valid()
      reads this
    {
      StrictlySorted(env)
    }

    /** `LedgerDB()`: a fresh, empty environment. */
    constructor(p: Primitives)
      ensures Valid() && prims == p && env == []
    {
      prims := p;
      env := [];
    }

    /** `save_transaction(tx)`: put the transaction under its key, replacing
        whatever was there. */
    method SaveTransaction(tx: Json) returns (r: Result<()>)
      requires Valid()
      modifies this
      ensures Valid()
      ensures r.Ok? <==> TxKey(prims, tx).Ok?
      ensures r.Ok? ==> env == Put(old(env), TxKey(prims, tx).value, tx)
      ensures r.Err? ==> env == old(env)
    {
      var key := TxKey(prims, tx);
      if key.Err? {
        return Err(key.error);
      }
      PutSorted(env, key.value, tx);
      env := Put(env, key.value, tx);
      return Ok(());
    }

    /** `get_transaction(tx_id, tx_family)`: the transaction stored under
        `family_id`, or None. */
    function GetTransaction(txId: string, family: string): (r: Option<Json>)
      reads this
      ensures r.Some? <==> FormatKey(family, txId) in ToMap(env)
      ensures r.Some? ==> r.value == ToMap(env)[FormatKey(family, txId)]
    {
      Get(env, FormatKey(family, txId))
    }

    /** `get_balance(address, tx_family)`: a cursor scan over every entry. */
    method GetBalance(address: Json, family: string) returns (r: Result<int>)
      ensures r == Balance(env, address, family)
    {
      var balance := 0;
      var i := 0;
      while i < |env|
        invariant 0 <= i <= |env|
        invariant Balance(env, address, family) == Offset(balance, Balance(env[i..], address, family))
      {
        ScanStep(env, i, ContributionTo(address, family));
        var c := Contribution(env[i], address, family);
        if c.Err? {
          return Err(c.error);
        }
        balance := balance + c.value;
        i := i + 1;
      }
      return Ok(balance);
    }

    /** `get_all_transactions(tx_family)`: a cursor scan collecting values. */
    method GetAllTransactions(family: Option<string>) returns (r: seq<Json>)
      ensures r == Listed(env, family)
    {
      r := [];
      var i := 0;
      while i < |env|
        invariant 0 <= i <= |env|
        invariant Listed(env, family) == r + Listed(env[i..], family)
      {
        assert env[i..][1..] == env[i + 1..];
        var head := if family.None? || StartsWith(env[i].0, family.value + "_") then [env[i].1] else [];
        assert Listed(env[i..], family) == head + Listed(env[i + 1..], family);
        assert r + head + Listed(env[i + 1..], family) == r + (head + Listed(env[i + 1..], family));
        r := r + head;
        i := i + 1;
      }
    }

    /** `delete_transaction(tx_id, tx_family)`: True iff the key was there;
        only that key goes. */
    method DeleteTransaction(txId: string, family: string) returns (deleted: bool)
      requires Valid()
      modifies this
      ensures Valid()
      ensures deleted <==> FormatKey(family, txId) in ToMap(old(env))
      ensures env == Remove(old(env), FormatKey(family, txId))
      ensures ToMap(env) == ToMap(old(env)) - {FormatKey(family, txId)}
    {
      var key := FormatKey(family, txId);
      deleted := Get(env, key).Some?;
      RemoveSpec(env, key);
      env := Remove(env, key);
    }
  }

  /** After a save, reading back with the transaction's id and family gives
      the transaction itself; saving it again changes nothing. */
  lemma SaveThenGet(p: Primitives, s: seq<(string, Json)>, tx: Json, family: string)
    requires TxKey(p, tx).Ok? && ToMap(tx.entries)[FamilyField] == JStr(family)
    ensures var s' := Put(s, TxKey(p, tx).value, tx);
      Get(s', FormatKey(family, GenerateTxId(p, tx).value)) == Some(tx)
      && Put(s', TxKey(p, tx).value, tx) == s'
  {
    PutIdempotent(s, TxKey(p, tx).value, tx);
  }

  /** A client run: on an empty ledger, saving one transfer credits the
      recipient, debits the sender, lists the transaction under its family
      and makes it readable by id; deleting it empties the ledger again. */
  method SaveBalanceDelete(p: Primitives, tx: seq<(string, Json)>, sender: Json, recipient: Json, family: string, amount: int)
    requires UniqueKeys(tx) && Serializable(JObj(tx))
    requires FamilyField in ToMap(tx) && "sender" in ToMap(tx) && "recipient" in ToMap(tx) && "amount" in ToMap(tx)
    requires ToMap(tx)[FamilyField] == JStr(family)
    requires ToMap(tx)["sender"] == sender && ToMap(tx)["recipient"] == recipient && sender != recipient
    requires ToMap(tx)["amount"] == JInt(amount)
  {
    var db := new LedgerDB(p);
    assert HasKey(JObj(tx), FamilyField);
    var saved := db.SaveTransaction(JObj(tx));
    assert saved.Ok?;
    var key := TxKey(p, JObj(tx)).value;
    assert db.env == [(key, JObj(tx))];
    assert StartsWith(key, family + "_");
    ScanSingle((key, JObj(tx)), ContributionTo(recipient, family));
    ScanSingle((key, JObj(tx)), ContributionTo(sender, family));
    var credit := db.GetBalance(recipient, family);
    assert credit == Ok(amount);
    var debit := db.GetBalance(sender, family);
    assert debit == Ok(-amount);
    var listed := db.GetAllTransactions(Some(family));
    assert listed == [JObj(tx)];
    var id := GenerateTxId(p, JObj(tx)).value;
    assert db.GetTransaction(id, family) == Some(JObj(tx));
    var deleted := db.DeleteTransaction(id, family);
    assert deleted && db.env == [];
  }
}
