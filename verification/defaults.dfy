/** The placeholder chosen for a required path that has no value. */
module Defaults {
  import opened Values
  import opened Text
  import Wrappers

  /** Placeholder for name-like paths. */
  const NamePlaceholder: string := "Admin"
  /** Placeholder for phone-like paths. */
  const PhonePlaceholder: string := "0000000000"
  /** Prefix of the fallback placeholder. */
  const AutoPrefix: string := "auto_"

  /** The default for path `name`, by the ordered name heuristic: an e-mail-like
      name gets the admin e-mail, a name-like one `"Admin"`, a phone-like one ten
      zeros, exactly `password` gets the hash, anything else `"auto_" + name`.
      Substring tests are on the lower-cased name; the `password` test is not. */
  function DefaultFor(name: string, adminEmail: string, hash: string): (v: Value)
    ensures v.Str?
    ensures v.s in {adminEmail, NamePlaceholder, PhonePlaceholder, hash, AutoPrefix + name}
    ensures adminEmail != "" && hash != "" ==> !IsMissing(v)
  {
    var lower := ToLower(name);
    if Contains(lower, "email") then Str(adminEmail)
    else if Contains(lower, "name") then Str(NamePlaceholder)
    else if Contains(lower, "mobile") || Contains(lower, "phone") then Str(PhonePlaceholder)
    else if name == "password" then Str(hash)
    else Str(AutoPrefix + name)
  }

  /** How one heuristic rule tests a path name. */
  datatype Test =
    | LowerContainsAny(keywords: seq<string>)   // the lower-cased name contains one of these
    | Exactly(word: string)                     // the name, as written, equals this
    | Always

  /** What a rule produces: a fixed value, or the name with the `auto_` prefix. */
  datatype Produce = Fixed(value: Value) | Prefixed

  datatype Rule = Rule(test: Test, produce: Produce)

  predicate Matches(t: Test, name: string) {
    match t
    case LowerContainsAny(keywords) => exists i :: 0 <= i < |keywords| && Contains(ToLower(name), keywords[i])
    case Exactly(word) => name == word
    case Always => true
  }

  function Apply(p: Produce, name: string): Value {
    match p
    case Fixed(v) => v
    case Prefixed => Str(AutoPrefix + name)
  }

  /** The heuristic as data: an ordered list of rules. Every rule but the
      last yields one of the four fixed placeholders; the last matches every
      name, so evaluation always decides. */
  function Rules(adminEmail: string, hash: string): (r: seq<Rule>)
    ensures |r| == 5 && r[|r| - 1] == Rule(Always, Prefixed)
    ensures forall j | 0 <= j < |r| - 1 ::
              && r[j].produce.Fixed? && r[j].test != Always
              && r[j].produce.value in {Str(adminEmail), Str(NamePlaceholder), Str(PhonePlaceholder), Str(hash)}
  {
    [ Rule(LowerContainsAny(["email"]), Fixed(Str(adminEmail))),
      Rule(LowerContainsAny(["name"]), Fixed(Str(NamePlaceholder))),
      Rule(LowerContainsAny(["mobile", "phone"]), Fixed(Str(PhonePlaceholder))),
      Rule(Exactly("password"), Fixed(Str(hash))),
      Rule(Always, Prefixed) ]
  }

  /** Evaluates the rules in order; the first whose test matches decides. */
  function FirstMatch(rules: seq<Rule>, name: string): (r: Wrappers.Option<Value>)
    ensures r.Some? <==> exists j :: 0 <= j < |rules| && Matches(rules[j].test, name)
    ensures r.Some? ==> exists j :: 0 <= j < |rules| && Matches(rules[j].test, name)
                         && (forall i :: 0 <= i < j ==> !Matches(rules[i].test, name))
                         && r.value == Apply(rules[j].produce, name)
  {
    if |rules| == 0 then Wrappers.None
    else if Matches(rules[0].test, name) then Wrappers.Some(Apply(rules[0].produce, name))
    else
      var r := FirstMatch(rules[1..], name);
      assert forall j :: 1 <= j < |rules| ==> rules[1..][j - 1] == rules[j];
      if r.Some? then
        var j :| 0 <= j < |rules[1..]| && Matches(rules[1..][j].test, name)
                 && (forall i :: 0 <= i < j ==> !Matches(rules[1..][i].test, name))
                 && r.value == Apply(rules[1..][j].produce, name);
        assert forall i :: 0 <= i < j + 1 ==> !Matches(rules[i].test, name) by {
          forall i | 0 <= i < j + 1 ensures !Matches(rules[i].test, name) {
            if i > 0 { assert rules[i] == rules[1..][i - 1]; }
          }
        }
        r
      else
        r
  }

  /** One step of first-match evaluation. */
  lemma FirstMatchStep(rules: seq<Rule>, name: string)
    requires |rules| > 0
    ensures FirstMatch(rules, name) ==
      if Matches(rules[0].test, name) then Wrappers.Some(Apply(rules[0].produce, name))
      else FirstMatch(rules[1..], name)
  {
  }

  /** `DefaultFor` is exactly first-match evaluation of the rule list, and the
      list always decides (its last rule matches every name). */
  lemma {:induction false} DefaultForIsFirstMatch(name: string, adminEmail: string, hash: string)
    ensures FirstMatch(Rules(adminEmail, hash), name) == Wrappers.Some(DefaultFor(name, adminEmail, hash))
  {
    var rules := Rules(adminEmail, hash);
    var lower := ToLower(name);
    var m0 := Contains(lower, "email");
    var m1 := Contains(lower, "name");
    var m2 := Contains(lower, "mobile") || Contains(lower, "phone");
    var ks2 := ["mobile", "phone"];
    assert Matches(rules[0].test, name) == m0 by {
      if m0 { assert Contains(lower, ["email"][0]); }
    }
    assert Matches(rules[1].test, name) == m1 by {
      if m1 { assert Contains(lower, ["name"][0]); }
    }
    assert Matches(rules[2].test, name) == m2 by {
      if Contains(lower, "mobile") { assert Contains(lower, ks2[0]); }
      if Contains(lower, "phone") { assert Contains(lower, ks2[1]); }
    }
    FirstMatchStep(rules, name);
    FirstMatchStep(rules[1..], name);
    FirstMatchStep(rules[2..], name);
    FirstMatchStep(rules[3..], name);
    FirstMatchStep(rules[4..], name);
    assert rules[1..][0] == rules[1];
    assert rules[2..][0] == rules[2];
    assert rules[3..][0] == rules[3];
    assert rules[4..][0] == rules[4];
    assert rules[1..][1..] == rules[2..];
    assert rules[2..][1..] == rules[3..];
    assert rules[3..][1..] == rules[4..];
  }

  /** A fallback path defaults to `"auto_" + name` when no keyword rule and no
      exact-name rule applies. */
  lemma DefaultForFallback(name: string, adminEmail: string, hash: string)
    requires !Contains(ToLower(name), "email") && !Contains(ToLower(name), "name")
    requires !Contains(ToLower(name), "mobile") && !Contains(ToLower(name), "phone")
    requires name != "password"
    ensures DefaultFor(name, adminEmail, hash) == Str(AutoPrefix + name)
  {
  }

  // The examples below take the path name as a parameter pinned by a
  // `requires name == "..."` instead of writing the literal in the call: the
  // prover then does not unfold `ToLower` and `Contains` over the literal, and
  // each proof names the positions that decide it.

  /** `companyEmail` is e-mail-like once lower-cased, so it gets the admin e-mail. */
  lemma DefaultForCompanyEmail(name: string, adminEmail: string, hash: string)
    requires name == "companyEmail"
    ensures DefaultFor(name, adminEmail, hash) == Str(adminEmail)
  {
    assert ToLower(name) == "companyemail";
    ContainsAt("companyemail", "email", 7);
  }

  /** `phoneSecondary` is neither e-mail- nor name-like but phone-like. */
  lemma DefaultForPhoneSecondary(name: string, adminEmail: string, hash: string)
    requires name == "phoneSecondary"
    ensures DefaultFor(name, adminEmail, hash) == Str(PhonePlaceholder)
  {
    var lower := ToLower(name);
    assert lower == "phonesecondary";
    NotContainsMissingChar(lower, "email", 'm');
    NotContainsMissingChar(lower, "name", 'm');
    ContainsAt(lower, "phone", 0);
  }

  /** `department` has every letter of `name` but no occurrence of it: no
      `n` comes early enough to start one. */
  lemma DepartmentHasNoName(name: string)
    requires name == "department"
    ensures !Contains(name, "name")
  {
    assert name[..7] == "departm";
    NotContainsNoStart(name, "name");
  }

  /** `department` is already lower-case and contains none of the keywords. */
  lemma DepartmentHasNoKeyword(name: string)
    requires name == "department"
    ensures !Contains(ToLower(name), "email") && !Contains(ToLower(name), "name")
    ensures !Contains(ToLower(name), "mobile") && !Contains(ToLower(name), "phone")
  {
    assert ToLower(name) == name;
    NotContainsMissingChar(name, "email", 'l');
    DepartmentHasNoName(name);
    NotContainsMissingChar(name, "mobile", 'o');
    NotContainsMissingChar(name, "phone", 'h');
  }

  /** `department` matches no keyword, so it falls through to `"auto_department"`. */
  lemma DefaultForDepartment(name: string, adminEmail: string, hash: string)
    requires name == "department"
    ensures DefaultFor(name, adminEmail, hash) == Str(AutoPrefix + name)
  {
    DepartmentHasNoKeyword(name);
    DefaultForFallback(name, adminEmail, hash);
  }

  /** The `password` rule compares the name as written: `Password` is not the
      password path and falls through to `"auto_Password"`. */
  lemma DefaultForCapitalPassword(name: string, adminEmail: string, hash: string)
    requires name == "Password"
    ensures DefaultFor(name, adminEmail, hash) == Str(AutoPrefix + name)
  {
    var lower := ToLower(name);
    assert lower == "password";
    NotContainsMissingChar(lower, "email", 'l');
    NotContainsMissingChar(lower, "name", 'n');
    NotContainsMissingChar(lower, "mobile", 'm');
    NotContainsMissingChar(lower, "phone", 'h');
    DefaultForFallback(name, adminEmail, hash);
  }

  /** The exact path `password` gets the precomputed hash. */
  lemma DefaultForPassword(name: string, adminEmail: string, hash: string)
    requires name == "password"
    ensures DefaultFor(name, adminEmail, hash) == Str(hash)
  {
    var lower := ToLower(name);
    assert lower == "password";
    NotContainsMissingChar(lower, "email", 'l');
    NotContainsMissingChar(lower, "name", 'n');
    NotContainsMissingChar(lower, "mobile", 'm');
    NotContainsMissingChar(lower, "phone", 'h');
  }

  /** Rule order matters: `emailName` is both e-mail-like and name-like, and the
      earlier e-mail rule wins. */
  lemma DefaultForEmailBeforeName(name: string, adminEmail: string, hash: string)
    requires name == "emailName"
    ensures Contains(ToLower(name), "name")
    ensures DefaultFor(name, adminEmail, hash) == Str(adminEmail)
  {
    var lower := ToLower(name);
    assert lower == "emailname";
    ContainsAt(lower, "email", 0);
    ContainsAt(lower, "name", 5);
  }
}
