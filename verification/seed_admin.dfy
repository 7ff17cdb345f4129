/** The whole seeding run: synthesize the admin record from the fixed base
    record and the schema, then reconcile it with the store. */
module SeedAdmin {
  import opened Values
  import opened Wrappers
  import opened Schema
  import opened Defaults
  import opened Synthesis
  import opened Reconciler

  /** The identifying e-mail of the admin record. */
  const AdminEmail: string := "admin@example.com"

  /** The explicitly wanted admin fields; `hash` is the bcrypt hash of the
      admin password. */
  function AdminBase(hash: string): Record {
    map[
      "firstname" := Str("Admin"),
      "lastname" := Str("User"),
      "email" := Str(AdminEmail),
      "mobile" := Str("0000000000"),
      "password" := Str(hash),
      "role" := Str("admin")
    ]
  }

  /** What a run leaves behind: the store, the branch taken, and the fields it
      had to invent (which the script reports). */
  datatype Seeded = Seeded(store: Store, outcome: Outcome, autoFilled: Record)

  /** One run of the script against `store`, for a schema with paths `fields`. */
  function Seed(fields: seq<FieldDescriptor>, store: Store, hash: string): (r: Seeded)
    ensures r.outcome == Created <==> forall j | 0 <= j < |store| :: !HasEmail(store[j], AdminEmail)
    ensures forall k | k in r.autoFilled :: k !in SkipPaths && Demanded(fields, k)
  {
    var s := Synthesize(AdminBase(hash), fields, AdminEmail, hash);
    var rec := Reconcile(store, AdminEmail, s.data, s.autoFilled, hash);
    Seeded(rec.store, rec.outcome, s.autoFilled)
  }

  /** Only an empty hash leaves a base field missing: every other base value
      is a non-empty literal. */
  lemma MissingBaseField(hash: string, k: string)
    requires k in AdminBase(hash) && IsMissing(AdminBase(hash)[k])
    ensures k == "password" && hash == ""
  {
  }

  /** Synthesis keeps every base field: `firstname`, `lastname`, `email`,
      `mobile`, `password` and `role` leave the loop with their base values,
      and with a non-empty hash none of them is reported as auto-filled. */
  lemma BaseFieldsKept(fields: seq<FieldDescriptor>, hash: string)
    ensures var base := AdminBase(hash);
      var s := Synthesize(base, fields, AdminEmail, hash);
      forall k | k in base :: k in s.data && s.data[k] == base[k]
    ensures hash != "" ==>
      var s := Synthesize(AdminBase(hash), fields, AdminEmail, hash);
      forall k | k in AdminBase(hash) :: k !in s.autoFilled
  {
    var base := AdminBase(hash);
    var s := Synthesize(base, fields, AdminEmail, hash);
    forall k | k in base ensures k in s.data && s.data[k] == base[k] {
      if k in s.autoFilled {
        // The password rule writes that same empty hash back.
        MissingBaseField(hash, k);
        DefaultForPassword(k, AdminEmail, hash);
      }
    }
    forall k | k in base && hash != "" ensures k !in s.autoFilled {
      if k in s.autoFilled {
        MissingBaseField(hash, k);
      }
    }
  }

  /** The synthesized admin record carries the admin e-mail and already holds
      everything the update path would write. */
  lemma CandidateSettled(fields: seq<FieldDescriptor>, hash: string)
    ensures var s := Synthesize(AdminBase(hash), fields, AdminEmail, hash);
      HasEmail(s.data, AdminEmail) && Settled(s.data, s.autoFilled, hash)
  {
    var s := Synthesize(AdminBase(hash), fields, AdminEmail, hash);
    BaseFieldsKept(fields, hash);
    AgreesWithBase(s.data, hash);
  }

  /** Running the script twice with the same hash leaves the store as the
      first run left it, and the second run takes the update branch. (A real
      rerun hashes again with a fresh salt; `SeedRerunNewHash` covers that.) */
  lemma SeedIdempotent(fields: seq<FieldDescriptor>, store: Store, hash: string)
    ensures var first := Seed(fields, store, hash);
      var second := Seed(fields, first.store, hash);
      second.outcome == Updated && second.store == first.store
  {
    var s := Synthesize(AdminBase(hash), fields, AdminEmail, hash);
    CandidateSettled(fields, hash);
    ReconcileIdempotent(store, AdminEmail, s.data, s.autoFilled, hash);
  }

  /** A run never adds a second admin record: from a store with at most one
      record for the admin e-mail it always leaves exactly one. */
  lemma SeedKeepsAdminUnique(fields: seq<FieldDescriptor>, store: Store, hash: string)
    requires CountWithEmail(store, AdminEmail) <= 1
    ensures CountWithEmail(Seed(fields, store, hash).store, AdminEmail) == 1
  {
    var s := Synthesize(AdminBase(hash), fields, AdminEmail, hash);
    CandidateSettled(fields, hash);
    ReconcileKeepsEmailUnique(store, AdminEmail, s.data, s.autoFilled, hash);
  }

  /** The privileged fields of the admin record after a run, whichever branch
      was taken: the hash as password, the admin role, the base names and
      mobile, and the admin e-mail. */
  predicate AdminFieldsSet(rec: Record, hash: string) {
    && Get(rec, "password") == Str(hash)
    && Get(rec, "role") == Str("admin")
    && Get(rec, "firstname") == Str("Admin")
    && Get(rec, "lastname") == Str("User")
    && Get(rec, "mobile") == Str("0000000000")
    && HasEmail(rec, AdminEmail)
  }

  /** The record has a defined, non-empty value for every required
      non-system path of the schema. */
  predicate SatisfiesSchema(rec: Record, fields: seq<FieldDescriptor>) {
    forall i | 0 <= i < |fields| && RequiredPath(fields[i]) :: !Missing(rec, fields[i].name)
  }

  /** The record the create branch inserts, the synthesized candidate, has its
      privileged fields set. */
  lemma CreatedRecordIsAdmin(fields: seq<FieldDescriptor>, hash: string)
    ensures AdminFieldsSet(Synthesize(AdminBase(hash), fields, AdminEmail, hash).data, hash)
  {
    BaseFieldsKept(fields, hash);
    AgreesWithBase(Synthesize(AdminBase(hash), fields, AdminEmail, hash).data, hash);
  }

  /** A record that holds every base field with its base value has the
      privileged fields set. */
  lemma AgreesWithBase(rec: Record, hash: string)
    requires forall k | k in AdminBase(hash) :: k in rec && rec[k] == AdminBase(hash)[k]
    ensures AdminFieldsSet(rec, hash)
  {
    var base := AdminBase(hash);
    assert base["password"] == Str(hash) && base["role"] == Str("admin");
    assert base["firstname"] == Str("Admin") && base["lastname"] == Str("User");
    assert base["mobile"] == Str("0000000000") && base["email"] == Str(AdminEmail);
  }

  /** With a non-empty hash the record the create branch inserts satisfies the
      schema. */
  lemma CreatedRecordSatisfiesSchema(fields: seq<FieldDescriptor>, hash: string)
    requires hash != ""
    ensures SatisfiesSchema(Synthesize(AdminBase(hash), fields, AdminEmail, hash).data, fields)
  {
    RequiredPathsFilled(AdminBase(hash), fields, AdminEmail, hash);
  }

  /** The record the update branch writes back has its privileged fields set,
      whatever the stored record held. */
  lemma UpdatedRecordIsAdmin(fields: seq<FieldDescriptor>, existing: Record, hash: string)
    requires HasEmail(existing, AdminEmail)
    ensures var s := Synthesize(AdminBase(hash), fields, AdminEmail, hash);
      AdminFieldsSet(UpdateExisting(existing, s.data, s.autoFilled, hash), hash)
  {
    var s := Synthesize(AdminBase(hash), fields, AdminEmail, hash);
    CreatedRecordIsAdmin(fields, hash);
    CandidateSettled(fields, hash);
    assert "role" !in s.autoFilled by {
      BaseFieldsKept(fields, hash);
      if "role" in s.autoFilled { MissingBaseField(hash, "role"); }
    }
    UpdateWritesCandidate(existing, s.data, s.autoFilled, hash);
    UpdateKeepsEmail(existing, s.data, s.autoFilled, hash, AdminEmail);
  }

  /** A required path the base record lacks is auto-filled, and in the record
      the update branch writes back it holds its placeholder, or the base value
      when it is an identity field. */
  lemma UpdatedAutoFilledPath(fields: seq<FieldDescriptor>, existing: Record, hash: string, k: string)
    requires HasEmail(existing, AdminEmail) && hash != ""
    requires Demanded(fields, k) && Missing(AdminBase(hash), k)
    ensures var s := Synthesize(AdminBase(hash), fields, AdminEmail, hash);
      !Missing(UpdateExisting(existing, s.data, s.autoFilled, hash), k)
  {
    var s := Synthesize(AdminBase(hash), fields, AdminEmail, hash);
    if k in IdentityFields {
      UpdatedRecordIsAdmin(fields, existing, hash);
    } else {
      assert !IsMissing(DefaultFor(k, AdminEmail, hash));
    }
  }

  /** A required path the base record supplied is, in the record the update
      branch writes back, either managed or the e-mail the record was found by. */
  lemma UpdatedSuppliedPath(fields: seq<FieldDescriptor>, existing: Record, hash: string, k: string)
    requires HasEmail(existing, AdminEmail) && hash != "" && Demanded(fields, k)
    requires !Missing(AdminBase(hash), k)
    ensures var s := Synthesize(AdminBase(hash), fields, AdminEmail, hash);
      !Missing(UpdateExisting(existing, s.data, s.autoFilled, hash), k)
  {
    var base := AdminBase(hash);
    assert k in base;
    UpdatedRecordIsAdmin(fields, existing, hash);
    if k !in FixedManaged {
      assert k == "email";
    }
  }

  /** The record the update branch writes back satisfies the schema. */
  lemma {:induction false} UpdatedRecordSatisfiesSchema(fields: seq<FieldDescriptor>, existing: Record, hash: string)
    requires HasEmail(existing, AdminEmail)
    requires hash != ""
    ensures var s := Synthesize(AdminBase(hash), fields, AdminEmail, hash);
      SatisfiesSchema(UpdateExisting(existing, s.data, s.autoFilled, hash), fields)
  {
    forall j | 0 <= j < |fields| && RequiredPath(fields[j])
      ensures var s := Synthesize(AdminBase(hash), fields, AdminEmail, hash);
        !Missing(UpdateExisting(existing, s.data, s.autoFilled, hash), fields[j].name)
    {
      var k := fields[j].name;
      assert Demanded(fields, k);
      if Missing(AdminBase(hash), k) {
        UpdatedAutoFilledPath(fields, existing, hash, k);
      } else {
        UpdatedSuppliedPath(fields, existing, hash, k);
      }
    }
  }

  /** After a run the store holds an admin record (the first one with the admin
      e-mail) whose privileged fields are set; and, with a non-empty hash, it
      satisfies every required non-system path of the schema, on the update
      branch as well as on the create branch. */
  lemma SeedAdminRecord(fields: seq<FieldDescriptor>, store: Store, hash: string)
    ensures var r := Seed(fields, store, hash);
      FindOne(r.store, AdminEmail).Some? && AdminFieldsSet(r.store[FindOne(r.store, AdminEmail).value], hash)
    ensures hash != "" ==>
      var r := Seed(fields, store, hash);
      SatisfiesSchema(r.store[FindOne(r.store, AdminEmail).value], fields)
  {
    var s := Synthesize(AdminBase(hash), fields, AdminEmail, hash);
    CandidateSettled(fields, hash);
    ReconcileThenFind(store, AdminEmail, s.data, s.autoFilled, hash);
    match FindOne(store, AdminEmail)
    case None =>
      CreatedRecordIsAdmin(fields, hash);
      if hash != "" {
        CreatedRecordSatisfiesSchema(fields, hash);
      }
    case Some(i) =>
      UpdatedRecordIsAdmin(fields, store[i], hash);
      if hash != "" {
        UpdatedRecordSatisfiesSchema(fields, store[i], hash);
      }
  }

  /** On the update branch the run is non-destructive: every other record is
      unchanged, and on the admin record every field outside the managed set
      (password, role, names, mobile and the auto-filled fields) keeps its
      stored value. */
  lemma SeedUpdateIsNonDestructive(fields: seq<FieldDescriptor>, store: Store, hash: string)
    requires FindOne(store, AdminEmail).Some?
    ensures var r := Seed(fields, store, hash);
      var i := FindOne(store, AdminEmail).value;
      && r.outcome == Updated
      && |r.store| == |store|
      && (forall j | 0 <= j < |store| && j != i :: r.store[j] == store[j])
      && (forall k | k in store[i] && k !in FixedManaged && k !in r.autoFilled :: k in r.store[i] && r.store[i][k] == store[i][k])
  {
  }

  /** On the create branch the run appends the synthesized record whole and
      leaves every stored record as it was. */
  lemma SeedCreateAppends(fields: seq<FieldDescriptor>, store: Store, hash: string)
    requires FindOne(store, AdminEmail).None?
    ensures var r := Seed(fields, store, hash);
      var s := Synthesize(AdminBase(hash), fields, AdminEmail, hash);
      && r.outcome == Created
      && r.store == store + [s.data]
  {
  }

  /** A required path named `valueOf` (any name `Object.prototype` carries
      behaves alike): the base record does not hold it, so the corrected loop
      fills it, but the script's own test reads the inherited method, takes the
      path as present and leaves it unfilled. */
  lemma InheritedPathLeftUnfilled(fields: seq<FieldDescriptor>, hash: string, f: FieldDescriptor)
    requires f.name == "valueOf" && IsRequired(f)
    requires f in fields
    ensures f.name !in AdminBase(hash)
    ensures !ScriptFills(AdminBase(hash), f)
    ensures f.name in Synthesize(AdminBase(hash), fields, AdminEmail, hash).autoFilled
  {
    var i :| 0 <= i < |fields| && fields[i] == f;
    assert Demanded(fields, f.name);
  }

  /** The base record has the same keys whatever the hash. */
  lemma BaseKeysIgnoreHash(h1: string, h2: string)
    ensures AdminBase(h1).Keys == AdminBase(h2).Keys
  {
  }

  /** With a non-empty hash a base field is missing only when the base record
      does not hold it, so `password` is never missing. */
  lemma BaseMissingIsAbsent(hash: string, k: string)
    requires hash != ""
    ensures Missing(AdminBase(hash), k) <==> k !in AdminBase(hash)
    ensures Missing(AdminBase(hash), k) ==> k != "password"
  {
    if k in AdminBase(hash) && Missing(AdminBase(hash), k) {
      MissingBaseField(hash, k);
    }
  }

  /** The placeholder of any path other than `password` does not depend on
      the hash. */
  lemma DefaultForIgnoresHash(name: string, adminEmail: string, h1: string, h2: string)
    requires name != "password"
    ensures DefaultFor(name, adminEmail, h1) == DefaultFor(name, adminEmail, h2)
  {
  }

  /** With any non-empty hash, synthesis reports the same auto-filled fields:
      the hash only matters for a missing `password`, and a non-empty hash
      keeps `password` from being missing. */
  lemma AutoFilledIgnoresHash(fields: seq<FieldDescriptor>, h1: string, h2: string)
    requires h1 != "" && h2 != ""
    ensures Synthesize(AdminBase(h1), fields, AdminEmail, h1).autoFilled
         == Synthesize(AdminBase(h2), fields, AdminEmail, h2).autoFilled
  {
    BaseKeysIgnoreHash(h1, h2);
    forall k ensures Missing(AdminBase(h1), k) == Missing(AdminBase(h2), k) {
      BaseMissingIsAbsent(h1, k);
      BaseMissingIsAbsent(h2, k);
    }
    forall k | Missing(AdminBase(h1), k)
      ensures DefaultFor(k, AdminEmail, h1) == DefaultFor(k, AdminEmail, h2)
    {
      BaseMissingIsAbsent(h1, k);
      DefaultForIgnoresHash(k, AdminEmail, h1, h2);
    }
    SameReport(AdminBase(h1), AdminBase(h2), fields, AdminEmail, h1, h2);
  }

  /** An identity field is in the base record, with a non-empty value that
      does not depend on the hash. */
  lemma IdentityInBase(h1: string, h2: string, k: string)
    requires k in IdentityFields
    ensures k in AdminBase(h1) && !Missing(AdminBase(h1), k)
    ensures Get(AdminBase(h1), k) == Get(AdminBase(h2), k)
  {
    assert k == "firstname" || k == "lastname" || k == "mobile";
  }

  /** Synthesis with any hash keeps the base names and mobile. */
  lemma IdentityIgnoresHash(fields: seq<FieldDescriptor>, h1: string, h2: string)
    ensures forall k | k in IdentityFields ::
      Get(Synthesize(AdminBase(h1), fields, AdminEmail, h1).data, k)
      == Get(Synthesize(AdminBase(h2), fields, AdminEmail, h2).data, k)
  {
    forall k | k in IdentityFields
      ensures Get(Synthesize(AdminBase(h1), fields, AdminEmail, h1).data, k)
           == Get(Synthesize(AdminBase(h2), fields, AdminEmail, h2).data, k)
    {
      IdentityInBase(h1, h2, k);
      IdentityInBase(h2, h1, k);
      ExplicitValueKept(AdminBase(h1), fields, AdminEmail, h1, k);
      ExplicitValueKept(AdminBase(h2), fields, AdminEmail, h2, k);
    }
  }

  /** The store a run leaves when a record has the admin e-mail: the first
      such record replaced by its update, nothing else changed. */
  lemma SeedUpdateShape(fields: seq<FieldDescriptor>, store: Store, hash: string)
    requires FindOne(store, AdminEmail).Some?
    ensures var i := FindOne(store, AdminEmail).value;
      var s := Synthesize(AdminBase(hash), fields, AdminEmail, hash);
      Seed(fields, store, hash).store == store[i := UpdateExisting(store[i], s.data, s.autoFilled, hash)]
  {
  }

  /** A real rerun: bcrypt salts every call, so the second run comes with a
      different hash. It takes the update branch and changes exactly one
      field of the store, the admin record's `password`, to the new hash. */
  lemma {:induction false} SeedRerunNewHash(fields: seq<FieldDescriptor>, store: Store, h1: string, h2: string)
    requires h1 != "" && h2 != ""
    ensures var first := Seed(fields, store, h1);
      && FindOne(first.store, AdminEmail).Some?
      && var i := FindOne(first.store, AdminEmail).value;
         var second := Seed(fields, first.store, h2);
         && second.outcome == Updated
         && second.store == first.store[i := first.store[i]["password" := Str(h2)]]
  {
    var s1 := Synthesize(AdminBase(h1), fields, AdminEmail, h1);
    var s2 := Synthesize(AdminBase(h2), fields, AdminEmail, h2);
    var first := Seed(fields, store, h1);
    SeedAdminRecord(fields, store, h1);
    var i := FindOne(first.store, AdminEmail).value;
    var r1 := first.store[i];
    SeedIdempotent(fields, store, h1);
    SeedUpdateShape(fields, first.store, h1);
    assert UpdateExisting(r1, s1.data, s1.autoFilled, h1) == r1 by {
      assert first.store[i := UpdateExisting(r1, s1.data, s1.autoFilled, h1)][i] == first.store[i];
    }
    AutoFilledIgnoresHash(fields, h1, h2);
    IdentityIgnoresHash(fields, h1, h2);
    BaseFieldsKept(fields, h1);
    UpdateWithNewHash(r1, s1.data, s2.data, s1.autoFilled, h1, h2);
    SeedUpdateShape(fields, first.store, h2);
  }
}
