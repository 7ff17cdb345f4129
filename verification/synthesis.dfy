/** The default synthesizer: the loop over the schema's paths that fills every
    required, non-system path the base record leaves missing. */
module Synthesis {
  import opened Values
  import opened Schema
  import opened Defaults

  /** The loop's two outputs: the completed record (`adminData` after the loop)
      and the placeholders it invented (`autoFilled`). */
  datatype Synthesized = Synthesized(data: Record, autoFilled: Record)

  /** Some path of the schema named `k` is required and not a system path. */
  predicate Demanded(fields: seq<FieldDescriptor>, k: string) {
    exists i :: 0 <= i < |fields| && fields[i].name == k && RequiredPath(fields[i])
  }

  /** One iteration of the loop, for path `f`. It touches at most the visited
      path: a system path leaves everything as it was; otherwise the path is
      reported exactly when it was already reported or it is required and
      missing, and a newly filled path holds its default in both outputs. */
  function Visit(st: Synthesized, f: FieldDescriptor, adminEmail: string, hash: string): (r: Synthesized)
    ensures f.name in SkipPaths ==> r == st
    ensures r.data - {f.name} == st.data - {f.name}
    ensures r.autoFilled - {f.name} == st.autoFilled - {f.name}
    ensures f.name !in SkipPaths ==>
      (f.name in r.autoFilled <==> f.name in st.autoFilled || (IsRequired(f) && Missing(st.data, f.name)))
    ensures r != st ==>
      && f.name in r.data && f.name in r.autoFilled
      && r.data[f.name] == r.autoFilled[f.name] == DefaultFor(f.name, adminEmail, hash)
  {
    if f.name in SkipPaths then st
    else if IsRequired(f) && Missing(st.data, f.name) then
      var d := DefaultFor(f.name, adminEmail, hash);
      Synthesized(st.data[f.name := d], st.autoFilled[f.name := d])
    else st
  }

  /** The fill decision of one iteration exactly as the script writes it,
      with the emptiness test that reads through `Object.prototype`. It agrees
      with the decision `Visit` makes on a record except for a required path
      whose name is inherited and which the record does not hold: the script
      takes that path as present and leaves it unfilled. */
  function ScriptFills(data: Record, f: FieldDescriptor): (b: bool)
    ensures b <==> && f.name !in SkipPaths && IsRequired(f) && Missing(data, f.name)
                   && !(f.name !in data && f.name in InheritedNames)
  {
    f.name !in SkipPaths && IsRequired(f) && ScriptMissing(data, f.name)
  }

  /** What the loop guarantees after visiting `fields`: the auto-filled keys
      are exactly the demanded paths missing from the base, each holds its
      heuristic default, and the record is the base overridden by them. */
  ghost predicate Accounts(base: Record, fields: seq<FieldDescriptor>, adminEmail: string, hash: string, st: Synthesized) {
    && (forall k :: k in st.autoFilled <==> Demanded(fields, k) && Missing(base, k))
    && (forall k | k in st.autoFilled :: st.autoFilled[k] == DefaultFor(k, adminEmail, hash))
    && st.data == base + st.autoFilled
  }

  /** The paths demanded by a schema grown by one path. */
  lemma DemandedSnoc(init: seq<FieldDescriptor>, f: FieldDescriptor, k: string)
    ensures Demanded(init + [f], k) <==> Demanded(init, k) || (f.name == k && RequiredPath(f))
  {
    var fields := init + [f];
    if Demanded(fields, k) {
      var i :| 0 <= i < |fields| && fields[i].name == k && RequiredPath(fields[i]);
      if i < |init| { assert init[i] == fields[i]; }
    }
    if Demanded(init, k) {
      var i :| 0 <= i < |init| && init[i].name == k && RequiredPath(init[i]);
      assert fields[i] == init[i];
    }
    if f.name == k && RequiredPath(f) {
      assert fields[|init|] == f;
    }
  }

  /** Writing a key after an override is the same as overriding with that write. */
  lemma OverrideUpdate(base: Record, over: Record, k: string, v: Value)
    ensures (base + over)[k := v] == base + over[k := v]
  {
    var lhs, rhs := (base + over)[k := v], base + over[k := v];
    assert lhs.Keys == rhs.Keys;
    forall j | j in lhs ensures lhs[j] == rhs[j] {
    }
  }

  /** Visiting one more path keeps the loop's guarantee. */
  lemma VisitKeepsAccounts(base: Record, init: seq<FieldDescriptor>, f: FieldDescriptor,
                           adminEmail: string, hash: string, st: Synthesized)
    requires Accounts(base, init, adminEmail, hash, st)
    ensures Accounts(base, init + [f], adminEmail, hash, Visit(st, f, adminEmail, hash))
  {
    var fields := init + [f];
    var k0 := f.name;
    if k0 !in SkipPaths && IsRequired(f) && Missing(st.data, k0) {
      var d := DefaultFor(k0, adminEmail, hash);
      var st' := Synthesized(st.data[k0 := d], st.autoFilled[k0 := d]);
      assert Visit(st, f, adminEmail, hash) == st';
      forall k ensures k in st'.autoFilled <==> Demanded(fields, k) && Missing(base, k) {
        DemandedSnoc(init, f, k);
        if k == k0 && k !in st.autoFilled {
          assert Missing(st.data, k) == Missing(base, k);
        }
      }
      OverrideUpdate(base, st.autoFilled, k0, d);
    } else {
      assert Visit(st, f, adminEmail, hash) == st;
      forall k ensures k in st.autoFilled <==> Demanded(fields, k) && Missing(base, k) {
        DemandedSnoc(init, f, k);
        if k == k0 && k !in st.autoFilled && RequiredPath(f) {
          assert Missing(st.data, k) == Missing(base, k);
        }
      }
    }
  }

  /** Runs the loop over `fields` in order, starting from `base` and an empty
      `autoFilled`. A path is auto-filled exactly when it is demanded by the
      schema and missing from the base record; it then holds its heuristic
      default, and the completed record is the base overridden by those
      placeholders alone. */
  function Synthesize(base: Record, fields: seq<FieldDescriptor>, adminEmail: string, hash: string): (r: Synthesized)
    ensures forall k :: k in r.autoFilled <==> Demanded(fields, k) && Missing(base, k)
    ensures forall k | k in r.autoFilled :: r.autoFilled[k] == DefaultFor(k, adminEmail, hash)
    ensures r.data == base + r.autoFilled
    decreases |fields|
  {
    if |fields| == 0 then Synthesized(base, map[])
    else
      var init := fields[..|fields| - 1];
      var f := fields[|fields| - 1];
      var st := Synthesize(base, init, adminEmail, hash);
      assert init + [f] == fields;
      VisitKeepsAccounts(base, init, f, adminEmail, hash, st);
      Visit(st, f, adminEmail, hash)
  }

  /** A system path is never auto-filled and keeps its base value. */
  lemma SkippedPathsUntouched(base: Record, fields: seq<FieldDescriptor>, adminEmail: string, hash: string, k: string)
    requires k in SkipPaths
    ensures var r := Synthesize(base, fields, adminEmail, hash);
      k !in r.autoFilled && Get(r.data, k) == Get(base, k)
  {
  }

  /** Precedence: a base value that is neither `undefined` nor `""` (so also
      `null`) is never replaced. */
  lemma ExplicitValueKept(base: Record, fields: seq<FieldDescriptor>, adminEmail: string, hash: string, k: string)
    requires !Missing(base, k)
    ensures var r := Synthesize(base, fields, adminEmail, hash);
      k !in r.autoFilled && Get(r.data, k) == Get(base, k)
  {
  }

  /** Two runs whose base records miss the same keys, and whose placeholders
      agree on those keys, report the same auto-filled fields. */
  lemma SameReport(b1: Record, b2: Record, fields: seq<FieldDescriptor>, adminEmail: string, h1: string, h2: string)
    requires forall k :: Missing(b1, k) == Missing(b2, k)
    requires forall k | Missing(b1, k) :: DefaultFor(k, adminEmail, h1) == DefaultFor(k, adminEmail, h2)
    ensures Synthesize(b1, fields, adminEmail, h1).autoFilled == Synthesize(b2, fields, adminEmail, h2).autoFilled
  {
    var a1 := Synthesize(b1, fields, adminEmail, h1).autoFilled;
    var a2 := Synthesize(b2, fields, adminEmail, h2).autoFilled;
    SameReportKeys(b1, b2, fields, adminEmail, h1, h2);
    forall k | k in a1 ensures a1[k] == a2[k] {
      assert Missing(b1, k);
    }
  }

  /** Base records that miss the same keys get reports with the same keys,
      whatever the hashes. */
  lemma SameReportKeys(b1: Record, b2: Record, fields: seq<FieldDescriptor>, adminEmail: string, h1: string, h2: string)
    requires forall k :: Missing(b1, k) == Missing(b2, k)
    ensures Synthesize(b1, fields, adminEmail, h1).autoFilled.Keys == Synthesize(b2, fields, adminEmail, h2).autoFilled.Keys
  {
  }

  /** Every auto-filled key is a non-system schema path whose completed value
      is the placeholder recorded for it. */
  lemma AutoFilledAgreesWithData(base: Record, fields: seq<FieldDescriptor>, adminEmail: string, hash: string)
    ensures var r := Synthesize(base, fields, adminEmail, hash);
      forall k | k in r.autoFilled ::
        k !in SkipPaths && Demanded(fields, k) && k in r.data && r.data[k] == r.autoFilled[k]
  {
  }

  /** Completeness: when the e-mail and the hash are non-empty, every required
      non-system path of the schema ends with a defined, non-empty value. */
  lemma {:induction false} RequiredPathsFilled(base: Record, fields: seq<FieldDescriptor>, adminEmail: string, hash: string)
    requires adminEmail != "" && hash != ""
    ensures var r := Synthesize(base, fields, adminEmail, hash);
      forall i | 0 <= i < |fields| && RequiredPath(fields[i]) :: !Missing(r.data, fields[i].name)
  {
    var r := Synthesize(base, fields, adminEmail, hash);
    forall i | 0 <= i < |fields| && RequiredPath(fields[i])
      ensures !Missing(r.data, fields[i].name)
    {
      var k := fields[i].name;
      assert Demanded(fields, k);
      if Missing(base, k) {
        assert r.data[k] == DefaultFor(k, adminEmail, hash);
      }
    }
  }

  /** When the base record already supplies every required path, nothing is
      auto-filled and the record is the base unchanged. */
  lemma NothingToFill(base: Record, fields: seq<FieldDescriptor>, adminEmail: string, hash: string)
    requires forall i | 0 <= i < |fields| && RequiredPath(fields[i]) :: !Missing(base, fields[i].name)
    ensures var r := Synthesize(base, fields, adminEmail, hash);
      r.autoFilled == map[] && r.data == base
  {
  }

  /** Running the loop again on its own output fills nothing more. */
  lemma SynthesizeIdempotent(base: Record, fields: seq<FieldDescriptor>, adminEmail: string, hash: string)
    requires adminEmail != "" && hash != ""
    ensures var r := Synthesize(base, fields, adminEmail, hash);
      var again := Synthesize(r.data, fields, adminEmail, hash);
      again.autoFilled == map[] && again.data == r.data
  {
    RequiredPathsFilled(base, fields, adminEmail, hash);
    var r := Synthesize(base, fields, adminEmail, hash);
    NothingToFill(r.data, fields, adminEmail, hash);
  }
}
