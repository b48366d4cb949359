/**
 * Callback resolution and invocation (`_executeCallback`): which callable a
 * configured callback names, whether its name must carry a prefix, and what
 * a call returns.
 */
module Callbacks {
  import opened Basics
  import opened Php
  import opened Exceptions
  import opened Schema
  import opened Builtins

  /** The `requirePrefixFor` option: which callables must carry the prefix. */
  datatype Requirement = Internal | External | Both

  /** What a callback resolved to. */
  datatype Resolution =
    | OwnMethod(name: string)                        // a method of the sitemap object itself
    | Function(name: string)                         // a global function
    | ForeignMethod(handle: string, name: string)    // a method of another class or object
    | Unresolved                                     // nothing is called; the result is NULL

  predicate InternalPrefixRequired(prefix: string, req: Requirement) {
    !EmptyString(prefix) && (req == Internal || req == Both)
  }

  predicate ExternalPrefixRequired(prefix: string, req: Requirement) {
    !EmptyString(prefix) && (req == External || req == Both)
  }

  /** The target may be called as an internal method under the prefix rule. */
  predicate InternalAllowed(name: string, prefix: string, req: Requirement) {
    !InternalPrefixRequired(prefix, req) || StartsWith(name, prefix)
  }

  predicate ExternalAllowed(name: string, prefix: string, req: Requirement) {
    !ExternalPrefixRequired(prefix, req) || StartsWith(name, prefix)
  }

  /**
   * `_progressEntryData` splits the bound arguments off only when there are
   * some, so an (object, method) pair without any reaches `_executeCallback`
   * still wrapped in its one-element array. Unwrapping it there leaves the
   * pair itself as the callable's name, with no class split off.
   */
  predicate Unsplit(cb: Callback) {
    cb.target.Method? && cb.extras == []
  }

  /**
   * Resolves a callback target once it is split into a bare name or a class
   * and a method. Only the requirement 'both' can throw; every other mismatch
   * silently resolves to nothing.
   */
  function ResolveTarget(target: Target, prefix: string, req: Requirement, variant: Variant, rt: Runtime): (r: Result<Resolution, Error>)
    ensures r.Err? <==> !EmptyString(prefix) && req == Both && !StartsWith(target.name, prefix)
    ensures r.Err? ==> r.error == CallbackPrefixMissing(prefix) && r.error.Class() == InvalidCallback
    ensures r.Ok? && r.value.OwnMethod? ==>
      r.value.name == target.name && (target.Fn? || target.owner == This)
      && HasMethod(variant, target.name) && InternalAllowed(target.name, prefix, req)
    ensures r.Ok? && r.value.Function? ==>
      target == Fn(r.value.name) && rt.functionExists(target.name) && ExternalAllowed(target.name, prefix, req)
    ensures r.Ok? && r.value.ForeignMethod? ==>
      target == Method(Other(r.value.handle), r.value.name) && rt.methodExists(r.value.handle, r.value.name)
      && ExternalAllowed(target.name, prefix, req)
    ensures r.Ok? && target.Fn? && HasMethod(variant, target.name) && InternalAllowed(target.name, prefix, req) ==>
      r.value == OwnMethod(target.name)
  {
    if !EmptyString(prefix) && req == Both && !StartsWith(target.name, prefix) then
      Err(CallbackPrefixMissing(prefix))
    else
      var internal := InternalAllowed(target.name, prefix, req);
      var external := ExternalAllowed(target.name, prefix, req);
      Ok(match target
        case Fn(name) =>
          if internal && HasMethod(variant, name) then OwnMethod(name)
          else if external && rt.functionExists(name) then Function(name)
          else Unresolved
        case Method(This, name) =>
          if internal && HasMethod(variant, name) then OwnMethod(name) else Unresolved
        case Method(Other(handle), name) =>
          if external && rt.methodExists(handle, name) then ForeignMethod(handle, name) else Unresolved)
  }

  /**
   * Resolves a pair that arrives as the callable's name. A pair never starts
   * with the prefix, so 'both' with a prefix throws and 'external' with a
   * prefix calls nothing; otherwise the bare-name branch that needs no
   * external prefix runs the pair, whatever its method is called.
   */
  function ResolvePair(owner: Owner, name: string, prefix: string, req: Requirement, variant: Variant, rt: Runtime): (r: Result<Resolution, Error>)
    ensures r.Err? <==> !EmptyString(prefix) && req == Both
    ensures r.Err? ==> r.error == CallbackPrefixMissing(prefix) && r.error.Class() == InvalidCallback
    ensures r.Ok? && r.value.OwnMethod? ==>
      r.value.name == name && owner == This && HasMethod(variant, name) && !ExternalPrefixRequired(prefix, req)
    ensures r.Ok? ==> !r.value.Function?
    ensures r.Ok? && r.value.ForeignMethod? ==>
      owner == Other(r.value.handle) && r.value.name == name && rt.methodExists(r.value.handle, name)
      && !ExternalPrefixRequired(prefix, req)
    ensures r.Ok? && !ExternalPrefixRequired(prefix, req) && owner == This && HasMethod(variant, name) ==>
      r.value == OwnMethod(name)
    ensures r.Ok? && !ExternalPrefixRequired(prefix, req) && owner.Other? && rt.methodExists(owner.handle, name) ==>
      r.value == ForeignMethod(owner.handle, name)
  {
    if !EmptyString(prefix) && req == Both then
      Err(CallbackPrefixMissing(prefix))
    else if ExternalPrefixRequired(prefix, req) then
      Ok(Unresolved)
    else
      Ok(match owner
        case This => if HasMethod(variant, name) then OwnMethod(name) else Unresolved
        case Other(handle) => if rt.methodExists(handle, name) then ForeignMethod(handle, name) else Unresolved)
  }

  /**
   * Resolves a configured callback: an unsplit pair goes by the pair rule,
   * everything else by its name or its class and method.
   */
  function Resolve(cb: Callback, prefix: string, req: Requirement, variant: Variant, rt: Runtime): (r: Result<Resolution, Error>)
    ensures r.Err? <==> !EmptyString(prefix) && req == Both && (Unsplit(cb) || !StartsWith(cb.target.name, prefix))
    ensures r.Err? ==> r.error == CallbackPrefixMissing(prefix) && r.error.Class() == InvalidCallback
    ensures r.Ok? && r.value.OwnMethod? ==>
      r.value.name == cb.target.name && (cb.target.Fn? || cb.target.owner == This) && HasMethod(variant, cb.target.name)
      && (if Unsplit(cb) then !ExternalPrefixRequired(prefix, req) else InternalAllowed(cb.target.name, prefix, req))
    ensures r.Ok? && r.value.Function? ==>
      cb.target == Fn(r.value.name) && rt.functionExists(cb.target.name) && ExternalAllowed(cb.target.name, prefix, req)
    ensures r.Ok? && r.value.ForeignMethod? ==>
      cb.target == Method(Other(r.value.handle), r.value.name) && rt.methodExists(r.value.handle, r.value.name)
      && (if Unsplit(cb) then !ExternalPrefixRequired(prefix, req) else ExternalAllowed(cb.target.name, prefix, req))
    ensures r.Ok? && cb.target.Fn? && HasMethod(variant, cb.target.name) && InternalAllowed(cb.target.name, prefix, req) ==>
      r.value == OwnMethod(cb.target.name)
    ensures r.Ok? && Unsplit(cb) && !ExternalPrefixRequired(prefix, req) && cb.target.owner == This && HasMethod(variant, cb.target.name) ==>
      r.value == OwnMethod(cb.target.name)
  {
    if Unsplit(cb) then ResolvePair(cb.target.owner, cb.target.name, prefix, req, variant, rt)
    else ResolveTarget(cb.target, prefix, req, variant, rt)
  }

  /** Calls what a callback resolved to; nothing resolved gives NULL. */
  function Invoke(res: Resolution, args: seq<Value>, rt: Runtime): (r: Value)
    ensures res.Unresolved? ==> r == Null
  {
    match res
    case OwnMethod(name) => CallBuiltin(name, args, rt)
    case Function(name) => rt.callFunction(name, args)
    case ForeignMethod(handle, name) => rt.callMethod(handle, name, args)
    case Unresolved => Null
  }

  /**
   * Runs a configured callback on a value: the value is the first argument,
   * followed by the callback's bound arguments in their declared order.
   */
  function Execute(cb: Callback, value: Value, prefix: string, req: Requirement, variant: Variant, rt: Runtime): (r: Result<Value, Error>)
    ensures r.Err? <==> Resolve(cb, prefix, req, variant, rt).Err?
    ensures r.Ok? && Resolve(cb, prefix, req, variant, rt).value == Unresolved ==> r.value == Null
    ensures r.Ok? && Resolve(cb, prefix, req, variant, rt).value.OwnMethod? ==>
      r.value == CallBuiltin(cb.target.name, [value] + cb.extras, rt)
    ensures r.Ok? && Resolve(cb, prefix, req, variant, rt).value.Function? ==>
      r.value == rt.callFunction(cb.target.name, [value] + cb.extras)
    ensures r.Ok? && Resolve(cb, prefix, req, variant, rt).value.ForeignMethod? ==>
      r.value == rt.callMethod(cb.target.owner.handle, cb.target.name, [value] + cb.extras)
  {
    match Resolve(cb, prefix, req, variant, rt)
    case Err(e) => Err(e)
    case Ok(res) => Ok(Invoke(res, [value] + cb.extras, rt))
  }

  /**
   * The processing pipeline always asks for an internal prefix; under that
   * requirement no callback throws. A bare name or a split pair that lacks
   * the prefix is never run as one of the sitemap's own methods, but an
   * unsplit pair naming one of them is run whatever its name.
   */
  lemma InternalRequirementNeverThrows(cb: Callback, value: Value, prefix: string, variant: Variant, rt: Runtime)
    ensures Execute(cb, value, prefix, Internal, variant, rt).Ok?
    ensures !Unsplit(cb) && !EmptyString(prefix) && !StartsWith(cb.target.name, prefix) ==>
      !Resolve(cb, prefix, Internal, variant, rt).value.OwnMethod?
    ensures Unsplit(cb) && cb.target.owner == This ==>
      (Resolve(cb, prefix, Internal, variant, rt).value.OwnMethod? <==> HasMethod(variant, cb.target.name))
  {
  }

  /**
   * An own method configured as `array(array($this, 'name'))`, with no bound
   * arguments, runs on the value under the 'internal' requirement whatever
   * the prefix.
   */
  lemma PairBypassesPrefix(name: string, value: Value, prefix: string, v: Variant, rt: Runtime)
    requires HasMethod(v, name)
    ensures Execute(Callback(Method(This, name), []), value, prefix, Internal, v, rt) == Ok(CallBuiltin(name, [value], rt))
  {
    var cb := Callback(Method(This, name), []);
    assert Resolve(cb, prefix, Internal, v, rt) == Ok(OwnMethod(name)) by {
      PairIsOwn(name, prefix, v, rt);
    }
    ExecuteOwnAlone(cb, value, prefix, Internal, v, rt);
  }

  lemma ExecuteOwnAlone(cb: Callback, value: Value, prefix: string, req: Requirement, v: Variant, rt: Runtime)
    requires cb.extras == [] && Resolve(cb, prefix, req, v, rt) == Ok(OwnMethod(cb.target.name))
    ensures Execute(cb, value, prefix, req, v, rt) == Ok(CallBuiltin(cb.target.name, [value], rt))
  {
    ExecuteOwn(cb, value, prefix, req, v, rt);
    assert [value] + cb.extras == [value];
  }

  lemma PairIsOwn(name: string, prefix: string, v: Variant, rt: Runtime)
    requires HasMethod(v, name)
    ensures Resolve(Callback(Method(This, name), []), prefix, Internal, v, rt) == Ok(OwnMethod(name))
  {
  }

  /** Running a callback that resolved to an own method calls that method on the value and the bound arguments. */
  lemma ExecuteOwn(cb: Callback, value: Value, prefix: string, req: Requirement, v: Variant, rt: Runtime)
    requires Resolve(cb, prefix, req, v, rt) == Ok(OwnMethod(cb.target.name))
    ensures Execute(cb, value, prefix, req, v, rt) == Ok(CallBuiltin(cb.target.name, [value] + cb.extras, rt))
  {
  }

  /** `reset`, which lacks the validation prefix, runs as a validation callback in that form. */
  lemma ResetRunsAsValidation(value: Value, v: Variant, rt: Runtime)
    ensures !StartsWith("reset", "validation_")
    ensures Execute(Callback(Method(This, "reset"), []), value, "validation_", Internal, v, rt)
      == Ok(CallBuiltin("reset", [value], rt))
  {
    ResetUnprefixed();
    DeclaresReset(v);
    PairBypassesPrefix("reset", value, "validation_", v, rt);
  }

  /** Under 'both' with a prefix, the unsplit pair form always throws. */
  lemma PairThrowsUnderBoth(owner: Owner, name: string, value: Value, prefix: string, v: Variant, rt: Runtime)
    requires !EmptyString(prefix)
    ensures Execute(Callback(Method(owner, name), []), value, prefix, Both, v, rt) == Err(CallbackPrefixMissing(prefix))
  {
  }

  /**
   * The evidently intended resolution: a pair is split into class and method
   * whether or not bound arguments follow it, so the prefix rule applies to
   * its method.
   */
  function ResolveCorrected(cb: Callback, prefix: string, req: Requirement, variant: Variant, rt: Runtime): (r: Result<Resolution, Error>)
    ensures r.Err? <==> !EmptyString(prefix) && req == Both && !StartsWith(cb.target.name, prefix)
    ensures r.Ok? && r.value.OwnMethod? ==> r.value.name == cb.target.name && InternalAllowed(cb.target.name, prefix, req)
    ensures !Unsplit(cb) ==> r == Resolve(cb, prefix, req, variant, rt)
  {
    ResolveTarget(cb.target, prefix, req, variant, rt)
  }

  /** With the correction, a name lacking the prefix never runs as an own method under 'internal'. */
  lemma CorrectedKeepsPrefixRule(cb: Callback, prefix: string, v: Variant, rt: Runtime)
    requires !EmptyString(prefix) && !StartsWith(cb.target.name, prefix)
    ensures ResolveCorrected(cb, prefix, Internal, v, rt).Ok?
    ensures !ResolveCorrected(cb, prefix, Internal, v, rt).value.OwnMethod?
  {
    assert !InternalAllowed(cb.target.name, prefix, Internal);
  }

  /** With the correction, `reset` in the pair form is not run as a validation callback. */
  lemma ResetRefusedWhenCorrected(v: Variant, rt: Runtime)
    ensures ResolveCorrected(Callback(Method(This, "reset"), []), "validation_", Internal, v, rt) == Ok(Unresolved)
  {
    ResetUnprefixed();
    CorrectedKeepsPrefixRule(Callback(Method(This, "reset"), []), "validation_", v, rt);
  }

  /**
   * A bare callback naming one of the object's own methods, with the
   * prefix in place, runs that method on the value and its bound arguments.
   */
  lemma OwnCallback(name: string, extras: seq<Value>, value: Value, prefix: string, v: Variant, rt: Runtime)
    requires HasMethod(v, name) && StartsWith(name, prefix)
    ensures Execute(Callback(Fn(name), extras), value, prefix, Internal, v, rt) == Ok(CallBuiltin(name, [value] + extras, rt))
  {
    assert Resolve(Callback(Fn(name), extras), prefix, Internal, v, rt) == Ok(OwnMethod(name)) by {
      assert InternalAllowed(name, prefix, Internal);
    }
    ExecuteOwn(Callback(Fn(name), extras), value, prefix, Internal, v, rt);
  }

  /**
   * Under 'external' an own method needs no prefix, so any declared method,
   * `reset` for one, runs on the object; under 'internal' the same name is
   * not an own method and goes to a global function, if there is one.
   */
  lemma ResetResolution(v: Variant, rt: Runtime)
    ensures ResolveTarget(Fn("reset"), "validation_", External, v, rt) == Ok(OwnMethod("reset"))
    ensures ResolveTarget(Fn("reset"), "validation_", Internal, v, rt)
      == Ok(if rt.functionExists("reset") then Function("reset") else Unresolved)
  {
    ResetUnprefixed();
    ResetExternal(v, rt);
    ResetInternal(v, rt);
  }

  lemma ResetUnprefixed()
    ensures !StartsWith("reset", "validation_")
  {
    assert |"reset"| < |"validation_"|;
  }

  lemma ResetExternal(v: Variant, rt: Runtime)
    requires !StartsWith("reset", "validation_")
    ensures ResolveTarget(Fn("reset"), "validation_", External, v, rt) == Ok(OwnMethod("reset"))
  {
    DeclaresReset(v);
  }

  lemma ResetInternal(v: Variant, rt: Runtime)
    requires !StartsWith("reset", "validation_")
    ensures ResolveTarget(Fn("reset"), "validation_", Internal, v, rt)
      == Ok(if rt.functionExists("reset") then Function("reset") else Unresolved)
  {
    assert !InternalAllowed("reset", "validation_", Internal);
    assert ExternalAllowed("reset", "validation_", Internal);
  }

  /** validation_url resolves to the object's own method under the validation prefix. */
  lemma ValidationUrlIsOwn(v: Variant, rt: Runtime)
    ensures ResolveTarget(Fn("validation_url"), "validation_", Internal, v, rt) == Ok(OwnMethod("validation_url"))
  {
    ValidationUrlDeclared(v);
    ValidationPrefixed();
  }

  /** content_url resolves to the object's own method under the content prefix. */
  lemma ContentUrlIsOwn(v: Variant, rt: Runtime)
    ensures ResolveTarget(Fn("content_url"), "content_", Internal, v, rt) == Ok(OwnMethod("content_url"))
  {
    ContentUrlDeclared(v);
    ContentPrefixed();
  }

  /** validation_url run as a validation callback: the runtime's URL check on the value. */
  lemma ExecuteValidationUrl(value: Value, v: Variant, rt: Runtime)
    ensures Execute(Callback(Fn("validation_url"), []), value, "validation_", Internal, v, rt)
      == Ok(rt.builtin("validation_url", [value]))
  {
    assert [value] + [] == [value];
    assert HasMethod(v, "validation_url") && StartsWith("validation_url", "validation_") by {
      ValidationUrlDeclared(v);
      ValidationPrefixed();
    }
    OwnCallback("validation_url", [], value, "validation_", v, rt);
    CallValidationUrl([value], rt);
  }

  /** content_url run as a content callback: the escaped string form of the value. */
  lemma ExecuteContentUrl(value: Value, v: Variant, rt: Runtime)
    ensures Execute(Callback(Fn("content_url"), []), value, "content_", Internal, v, rt)
      == Ok(Str(ContentUrl(ToStr(value, rt))))
  {
    assert [value] + [] == [value];
    assert HasMethod(v, "content_url") && StartsWith("content_url", "content_") by {
      ContentUrlDeclared(v);
      ContentPrefixed();
    }
    OwnCallback("content_url", [], value, "content_", v, rt);
    CallContentUrl(value, rt);
  }

  lemma NotValidationPrefixed()
    ensures !StartsWith("validate_url", "validation_")
  {
    assert "validate_url"[..11][7] != "validation_"[7];
  }

  /**
   * `validate_url` lacks the validation prefix, so it is never one of the
   * object's own methods; unless PHP has a global function of that name it
   * resolves to nothing.
   */
  lemma ValidateUrlUnresolved(v: Variant, rt: Runtime)
    requires !rt.functionExists("validate_url")
    ensures ResolveTarget(Fn("validate_url"), "validation_", Internal, v, rt) == Ok(Unresolved)
  {
    NotValidationPrefixed();
    assert !EmptyString("validation_");
    assert !InternalAllowed("validate_url", "validation_", Internal);
    assert ExternalAllowed("validate_url", "validation_", Internal);
  }
}
