/** The reconciler: find the admin record by e-mail, then create it or update
    only its managed fields. */
module Reconciler {
  import opened Values
  import opened Wrappers

  /** Which branch the reconciler took. */
  datatype Outcome = Created | Updated

  /** The user collection, in the order the store returns it. */
  type Store = seq<Record>

  datatype Reconciled = Reconciled(store: Store, outcome: Outcome)

  /** The record's `email` field is exactly `email` (the `findOne` filter). */
  predicate HasEmail(r: Record, email: string) {
    Get(r, "email") == Str(email)
  }

  /** `findOne({ email })`: the position of the first record whose e-mail
      matches, or `None` when no record matches. */
  function FindOne(store: Store, email: string): (r: Option<nat>)
    ensures r.None? <==> forall j | 0 <= j < |store| :: !HasEmail(store[j], email)
    ensures r.Some? ==> r.value < |store| && HasEmail(store[r.value], email)
    ensures r.Some? ==> forall j | 0 <= j < r.value :: !HasEmail(store[j], email)
    decreases |store|
  {
    if |store| == 0 then None
    else
      var init := store[..|store| - 1];
      var found := FindOne(init, email);
      assert forall j | 0 <= j < |init| :: init[j] == store[j];
      if found.Some? then found
      else if HasEmail(store[|store| - 1], email) then Some(|store| - 1)
      else None
  }

  /** Number of records carrying `email`. */
  function CountWithEmail(store: Store, email: string): nat
    decreases |store|
  {
    if |store| == 0 then 0
    else CountWithEmail(store[..|store| - 1], email) + (if HasEmail(store[|store| - 1], email) then 1 else 0)
  }

  /** Fields the update path writes whatever `autoFilled` holds. */
  const FixedManaged: set<string> := {"password", "role", "firstname", "lastname", "mobile"}

  /** Fields copied from `adminData` after the auto-filled ones. */
  const IdentityFields: set<string> := {"firstname", "lastname", "mobile"}

  /** The update of an existing record: set the password to the hash and the
      role to `admin`, write every auto-filled field, then copy the first name,
      last name and mobile from `adminData`, in that order. Fields outside that
      managed set keep their stored value, and no field is removed. */
  function UpdateExisting(existing: Record, data: Record, autoFilled: Record, hash: string): (r: Record)
    ensures r.Keys == existing.Keys + autoFilled.Keys + FixedManaged
    ensures forall k | k in existing && k !in autoFilled && k !in FixedManaged :: r[k] == existing[k]
    ensures forall k | k in IdentityFields :: r[k] == Get(data, k)
    ensures forall k | k in autoFilled && k !in IdentityFields :: r[k] == autoFilled[k]
    ensures "password" !in autoFilled ==> r["password"] == Str(hash)
    ensures "role" !in autoFilled ==> r["role"] == Str("admin")
  {
    var secured := existing["password" := Str(hash)]["role" := Str("admin")];
    var filled := secured + autoFilled;
    filled["firstname" := Get(data, "firstname")]
          ["lastname" := Get(data, "lastname")]
          ["mobile" := Get(data, "mobile")]
  }

  /** Create-or-update. With no record for `email`, `adminData` is appended
      whole; otherwise the first matching record is updated in place and every
      other record is left as it was. */
  function Reconcile(store: Store, email: string, data: Record, autoFilled: Record, hash: string): (r: Reconciled)
    ensures r.outcome == Created <==> forall j | 0 <= j < |store| :: !HasEmail(store[j], email)
    ensures r.outcome == Created ==> r.store == store + [data]
    ensures r.outcome == Updated ==>
      |r.store| == |store| &&
      exists i | 0 <= i < |store| ::
        && HasEmail(store[i], email)
        && (forall j | 0 <= j < i :: !HasEmail(store[j], email))
        && r.store[i] == UpdateExisting(store[i], data, autoFilled, hash)
        && forall j | 0 <= j < |store| && j != i :: r.store[j] == store[j]
  {
    match FindOne(store, email)
    case None => Reconciled(store + [data], Created)
    case Some(i) => Reconciled(store[i := UpdateExisting(store[i], data, autoFilled, hash)], Updated)
  }

  /** Applying the update to an already updated record changes nothing. */
  lemma UpdateExistingIdempotent(existing: Record, data: Record, autoFilled: Record, hash: string)
    ensures var once := UpdateExisting(existing, data, autoFilled, hash);
      UpdateExisting(once, data, autoFilled, hash) == once
  {
    var once := UpdateExisting(existing, data, autoFilled, hash);
    var twice := UpdateExisting(once, data, autoFilled, hash);
    assert twice.Keys == once.Keys;
    forall k | k in once ensures twice[k] == once[k] {
    }
  }

  /** A candidate record already holds what the update would write: it agrees
      with every auto-filled field, carries the hash and the admin role unless
      those were auto-filled, and has the identity fields. */
  ghost predicate Settled(data: Record, autoFilled: Record, hash: string) {
    && (forall k | k in autoFilled :: k in data && data[k] == autoFilled[k])
    && ("password" in autoFilled || Get(data, "password") == Str(hash))
    && ("role" in autoFilled || Get(data, "role") == Str("admin"))
    && (forall k | k in IdentityFields :: k in data)
  }

  /** Updating a settled candidate with itself leaves it unchanged. */
  lemma UpdateSettledUnchanged(data: Record, autoFilled: Record, hash: string)
    requires Settled(data, autoFilled, hash)
    ensures UpdateExisting(data, data, autoFilled, hash) == data
  {
    var r := UpdateExisting(data, data, autoFilled, hash);
    assert r.Keys == data.Keys;
    forall k | k in data ensures r[k] == data[k] {
    }
  }

  /** The update keeps a matching e-mail, provided an auto-filled e-mail (the
      only way the update can write `email`) is that same e-mail. */
  lemma UpdateKeepsEmail(existing: Record, data: Record, autoFilled: Record, hash: string, email: string)
    requires HasEmail(existing, email)
    requires "email" in autoFilled ==> autoFilled["email"] == Str(email)
    ensures HasEmail(UpdateExisting(existing, data, autoFilled, hash), email)
  {
  }

  /** What the update writes for a settled candidate that did not have to
      invent its password or role: the candidate's password, the admin role, the
      candidate's identity fields. */
  lemma UpdateWritesCandidate(existing: Record, data: Record, autoFilled: Record, hash: string)
    requires Settled(data, autoFilled, hash)
    requires "role" !in autoFilled
    ensures var r := UpdateExisting(existing, data, autoFilled, hash);
      && Get(r, "password") == Get(data, "password")
      && Get(r, "role") == Str("admin")
      && forall k | k in IdentityFields :: Get(r, k) == Get(data, k)
  {
  }

  /** After reconciling, looking the e-mail up again finds the record the
      reconciler wrote: the candidate on the create branch, the updated record
      at the same position on the update branch. */
  lemma ReconcileThenFind(store: Store, email: string, data: Record, autoFilled: Record, hash: string)
    requires HasEmail(data, email)
    requires "email" in autoFilled ==> autoFilled["email"] == Str(email)
    ensures var r := Reconcile(store, email, data, autoFilled, hash);
      var found := FindOne(r.store, email);
      && found.Some?
      && (FindOne(store, email).None? ==> found.value == |store| && r.store[found.value] == data)
      && (FindOne(store, email).Some? ==>
            found == FindOne(store, email) &&
            r.store[found.value] == UpdateExisting(store[found.value], data, autoFilled, hash))
  {
    var r := Reconcile(store, email, data, autoFilled, hash);
    match FindOne(store, email)
    case None =>
      assert r.store[|store|] == data;
      assert FindOne(r.store, email) == Some(|store|);
    case Some(i) =>
      UpdateKeepsEmail(store[i], data, autoFilled, hash, email);
      assert FindOne(r.store, email) == Some(i);
  }

  /** No matching record means a count of zero, and the converse. */
  lemma {:induction false} CountZero(store: Store, email: string)
    ensures CountWithEmail(store, email) == 0 <==> forall j | 0 <= j < |store| :: !HasEmail(store[j], email)
    decreases |store|
  {
    if |store| > 0 {
      var init := store[..|store| - 1];
      CountZero(init, email);
      assert forall j | 0 <= j < |init| :: init[j] == store[j];
    }
  }

  /** Replacing a record by one that matches `email` exactly when it did keeps
      the count. */
  lemma {:induction false} CountReplace(store: Store, i: nat, x: Record, email: string)
    requires i < |store|
    requires HasEmail(x, email) == HasEmail(store[i], email)
    ensures CountWithEmail(store[i := x], email) == CountWithEmail(store, email)
    decreases |store|
  {
    var store' := store[i := x];
    var n := |store|;
    if i < n - 1 {
      assert store'[..n - 1] == store[..n - 1][i := x];
      CountReplace(store[..n - 1], i, x, email);
    } else {
      assert store'[..n - 1] == store[..n - 1];
    }
  }

  /** Reconciling never creates a second record for the e-mail: a store with no
      match gains exactly one, and a store with matches keeps their number.
      So a store holding at most one admin record still holds exactly one. */
  lemma {:induction false} ReconcileKeepsEmailUnique(store: Store, email: string, data: Record, autoFilled: Record, hash: string)
    requires HasEmail(data, email)
    requires "email" in autoFilled ==> autoFilled["email"] == Str(email)
    ensures var r := Reconcile(store, email, data, autoFilled, hash);
      CountWithEmail(r.store, email) == if CountWithEmail(store, email) == 0 then 1 else CountWithEmail(store, email)
    ensures CountWithEmail(store, email) <= 1 ==>
      CountWithEmail(Reconcile(store, email, data, autoFilled, hash).store, email) == 1
  {
    var r := Reconcile(store, email, data, autoFilled, hash);
    CountZero(store, email);
    match FindOne(store, email)
    case None =>
      assert (store + [data])[..|store|] == store;
    case Some(i) =>
      UpdateKeepsEmail(store[i], data, autoFilled, hash, email);
      CountReplace(store, i, UpdateExisting(store[i], data, autoFilled, hash), email);
  }

  /** Reconciling a second time with the same inputs takes the update branch and
      leaves the store exactly as the first run left it. */
  lemma ReconcileIdempotent(store: Store, email: string, data: Record, autoFilled: Record, hash: string)
    requires HasEmail(data, email)
    requires Settled(data, autoFilled, hash)
    ensures var first := Reconcile(store, email, data, autoFilled, hash);
      var second := Reconcile(first.store, email, data, autoFilled, hash);
      second.outcome == Updated && second.store == first.store
  {
    if FindOne(store, email).None? {
      RepeatAfterCreate(store, email, data, autoFilled, hash);
    } else {
      RepeatAfterUpdate(store, email, data, autoFilled, hash);
    }
  }

  /** After the create branch, a second reconcile finds the appended record
      and its update changes nothing. */
  lemma RepeatAfterCreate(store: Store, email: string, data: Record, autoFilled: Record, hash: string)
    requires HasEmail(data, email) && Settled(data, autoFilled, hash)
    requires FindOne(store, email).None?
    ensures var first := Reconcile(store, email, data, autoFilled, hash);
      Reconcile(first.store, email, data, autoFilled, hash) == Reconciled(first.store, Updated)
  {
    var after := store + [data];
    assert after[|store|] == data;
    assert FindOne(after, email) == Some(|store|);
    UpdateSettledUnchanged(data, autoFilled, hash);
    assert after[|store| := data] == after;
  }

  /** Replacing the first record with an e-mail by another record with that
      e-mail leaves it the first. */
  lemma FindAfterReplace(store: Store, email: string, i: nat, rec: Record)
    requires FindOne(store, email) == Some(i) && HasEmail(rec, email)
    ensures FindOne(store[i := rec], email) == Some(i)
  {
    var after := store[i := rec];
    assert HasEmail(after[i], email);
    assert forall j | 0 <= j < i :: after[j] == store[j];
  }

  /** After the update branch, a second reconcile finds the same record and
      updating it again changes nothing. */
  lemma RepeatAfterUpdate(store: Store, email: string, data: Record, autoFilled: Record, hash: string)
    requires HasEmail(data, email) && Settled(data, autoFilled, hash)
    requires FindOne(store, email).Some?
    ensures var first := Reconcile(store, email, data, autoFilled, hash);
      Reconcile(first.store, email, data, autoFilled, hash) == Reconciled(first.store, Updated)
  {
    var i := FindOne(store, email).value;
    var updated := UpdateExisting(store[i], data, autoFilled, hash);
    var after := store[i := updated];
    UpdateKeepsEmail(store[i], data, autoFilled, hash, email);
    FindAfterReplace(store, email, i, updated);
    UpdateExistingIdempotent(store[i], data, autoFilled, hash);
    assert after[i := updated] == after;
  }

  /** The update with another hash, and `adminData` that agrees on the
      identity fields, differs from the first only in `password` (provided
      the password was not auto-filled). */
  lemma UpdateWithNewHash(existing: Record, data1: Record, data2: Record, autoFilled: Record, h1: string, h2: string)
    requires "password" !in autoFilled
    requires forall k | k in IdentityFields :: Get(data1, k) == Get(data2, k)
    ensures UpdateExisting(existing, data2, autoFilled, h2)
         == UpdateExisting(existing, data1, autoFilled, h1)["password" := Str(h2)]
  {
    var a := UpdateExisting(existing, data2, autoFilled, h2);
    var b := UpdateExisting(existing, data1, autoFilled, h1)["password" := Str(h2)];
    assert a.Keys == b.Keys;
    forall k | k in a ensures a[k] == b[k] {
    }
  }
}
