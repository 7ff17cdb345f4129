/** Scenarios of one seeding run, stated over the model for every matching schema. */
module Scenarios {
  import opened Values
  import opened Schema
  import opened Defaults
  import opened Synthesis
  import opened Reconciler
  import opened SeedAdmin
  import opened Wrappers

  /** Every required non-system path of `fields` is one of the base fields. */
  predicate BaseCoversSchema(fields: seq<FieldDescriptor>, hash: string) {
    forall i | 0 <= i < |fields| && RequiredPath(fields[i]) :: fields[i].name in AdminBase(hash)
  }

  /** Empty store and a schema whose required paths the base record supplies
      (for instance `email`, `firstname`, `lastname`, `mobile`, `password`
      required and `bio` optional): the run creates the admin record and
      invents nothing. */
  lemma CreateWithNothingToFill(fields: seq<FieldDescriptor>, hash: string)
    requires BaseCoversSchema(fields, hash) && hash != ""
    ensures var r := Seed(fields, [], hash);
      r.outcome == Created && r.autoFilled == map[]
  {
    forall i | 0 <= i < |fields| && RequiredPath(fields[i])
      ensures !Missing(AdminBase(hash), fields[i].name)
    {
      if Missing(AdminBase(hash), fields[i].name) {
        MissingBaseField(hash, fields[i].name);
      }
    }
    NothingToFill(AdminBase(hash), fields, AdminEmail, hash);
  }

  /** Under the schema of `CreateFillsDepartment`, the only path that is
      demanded and missing from the base record (so the only path synthesis
      can auto-fill) is `department`. */
  lemma OnlyDepartmentFilled(fields: seq<FieldDescriptor>, hash: string, dept: string, k: string)
    requires hash != ""
    requires forall i | 0 <= i < |fields| && RequiredPath(fields[i]) ::
      fields[i].name in AdminBase(hash) || fields[i].name == dept
    requires Demanded(fields, k) && Missing(AdminBase(hash), k)
    ensures k == dept
  {
    var i :| 0 <= i < |fields| && fields[i].name == k && RequiredPath(fields[i]);
    if k in AdminBase(hash) {
      MissingBaseField(hash, k);
    }
  }

  /** A required `department` path the base record lacks is auto-filled with
      `"auto_department"`. */
  lemma DepartmentFilled(fields: seq<FieldDescriptor>, hash: string, dept: string)
    requires dept == "department" && Demanded(fields, dept)
    ensures var a := Synthesize(AdminBase(hash), fields, AdminEmail, hash).autoFilled;
      dept in a && a[dept] == Str(AutoPrefix + dept)
  {
    assert dept !in AdminBase(hash);
    DefaultForDepartment(dept, AdminEmail, hash);
  }

  /** Under that schema, synthesis invents exactly `department: "auto_department"`. */
  lemma {:induction false} DepartmentAutoFilled(fields: seq<FieldDescriptor>, hash: string, dept: string)
    requires dept == "department" && hash != ""
    requires Demanded(fields, dept)
    requires forall i | 0 <= i < |fields| && RequiredPath(fields[i]) ::
      fields[i].name in AdminBase(hash) || fields[i].name == dept
    ensures Synthesize(AdminBase(hash), fields, AdminEmail, hash).autoFilled == map[dept := Str(AutoPrefix + dept)]
  {
    DepartmentFilled(fields, hash, dept);
    forall k | k in Synthesize(AdminBase(hash), fields, AdminEmail, hash).autoFilled ensures k == dept {
      OnlyDepartmentFilled(fields, hash, dept, k);
    }
  }

  /** The same kind of schema plus a required `department` path: the run
      creates the admin record and invents exactly
      `department: "auto_department"`. */
  lemma {:induction false} CreateFillsDepartment(fields: seq<FieldDescriptor>, hash: string, dept: string)
    requires dept == "department" && hash != ""
    requires Demanded(fields, dept)
    requires forall i | 0 <= i < |fields| && RequiredPath(fields[i]) ::
      fields[i].name in AdminBase(hash) || fields[i].name == dept
    ensures var r := Seed(fields, [], hash);
      r.outcome == Created && r.autoFilled == map[dept := Str(AutoPrefix + dept)]
  {
    DepartmentAutoFilled(fields, hash, dept);
  }

  /** The update never writes `notes`. Stated on its own because proving this
      membership fact inside `ResetExistingUser`, next to the whole run, is
      costly for the prover. */
  lemma NotesUnmanaged()
    ensures "notes" !in FixedManaged
  {
  }

  /** A stored user with the admin e-mail, role `user` and an unmanaged
      `notes` field the schema does not require: after the run it is the admin
      (role `admin`, password the hash, the base names and mobile) and `notes`
      still holds its value. */
  lemma {:induction false} ResetExistingUser(fields: seq<FieldDescriptor>, user: Record, hash: string, notes: Value)
    requires HasEmail(user, AdminEmail) && "role" in user && user["role"] == Str("user")
    requires "notes" in user && user["notes"] == notes
    requires forall i | 0 <= i < |fields| :: fields[i].name == "notes" ==> !IsRequired(fields[i])
    ensures var r := Seed(fields, [user], hash);
      && r.outcome == Updated
      && |r.store| == 1
      && AdminFieldsSet(r.store[0], hash)
      && "notes" in r.store[0] && r.store[0]["notes"] == notes
  {
    var r := Seed(fields, [user], hash);
    SeedUpdateIsNonDestructive(fields, [user], hash);
    SeedAdminRecord(fields, [user], hash);
    NotesUnmanaged();
    assert "notes" !in r.autoFilled;
  }
}
