/** The schema walker: which declared paths the script looks at, and which of
    them it treats as required. */
module Schema {

  /** One schema path, reduced to what the script reads from it: its name,
      whether `options.required` is truthy, and the `type` tag of each entry
      of its `validators` list. */
  datatype FieldDescriptor = FieldDescriptor(
    name: string,
    optRequired: bool,
    validatorTypes: seq<string>)

  /** System-managed paths the walker never touches. */
  const SkipPaths: set<string> :=
    {"_id", "__v", "createdAt", "updatedAt", "passwordResetToken", "passwordResetExpires"}

  /** `validators.some(v => v.type === "required")`, scanned from the front. */
  function HasRequiredValidator(types: seq<string>): (r: bool)
    ensures r <==> exists i :: 0 <= i < |types| && types[i] == "required"
  {
    if |types| == 0 then false
    else types[0] == "required" || HasRequiredValidator(types[1..])
  }

  /** A path is required when its static flag says so or when one of its
      validators is a `required` validator; either mechanism alone suffices. */
  function IsRequired(f: FieldDescriptor): (r: bool)
    ensures r <==> f.optRequired || "required" in f.validatorTypes
  {
    f.optRequired || HasRequiredValidator(f.validatorTypes)
  }

  /** A path the synthesizer must fill when no value is given: required and not
      a system path. */
  predicate RequiredPath(f: FieldDescriptor) {
    f.name !in SkipPaths && IsRequired(f)
  }
}
