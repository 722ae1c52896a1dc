/**
 * A handler that matches updates by their class: with `strict` off an update
 * matches when it is an instance of the target class (`isinstance`, so
 * subclasses are admitted), with `strict` on only when its class is the
 * target class itself (`type(update) is target`).
 *
 * Python's class machinery is abstracted into a relation `sub` on class
 * identities: `sub(a, b)` holds when `a` is a subclass of `b`. Python's
 * subclass relation is reflexive and transitive; the lemmas that rely on
 * that say so in their requires.
 */
module TypeHandlers {

  import opened Updates

  ghost predicate Reflexive(sub: (TypeId, TypeId) -> bool) {
    forall t :: sub(t, t)
  }

  ghost predicate Transitive(sub: (TypeId, TypeId) -> bool) {
    forall a, b, c :: sub(a, b) && sub(b, c) ==> sub(a, c)
  }

  /** `isinstance(u, t)`. */
  predicate IsInstance(sub: (TypeId, TypeId) -> bool, u: Update, t: TypeId) {
    sub(TypeOf(u), t)
  }

  /** The handler's configuration; `target` is the source's `type` attribute. */
  datatype TypeHandler = TypeHandler(target: TypeId, strict: bool)

  /** `TypeHandler(type, callback, strict=False)`. */
  function NewTypeHandler(target: TypeId, strict: bool := false): (h: TypeHandler)
    ensures h.target == target && h.strict == strict
  {
    TypeHandler(target, strict)
  }

  /** `check_update`: whether the update is one this handler processes. */
  function CheckUpdate(h: TypeHandler, sub: (TypeId, TypeId) -> bool, u: Update): (r: bool)
    ensures r ==> TypeOf(u) == h.target || IsInstance(sub, u, h.target)
  {
    if !h.strict then IsInstance(sub, u, h.target) else TypeOf(u) == h.target
  }

  /** Leaving out `strict` gives a non-strict handler. */
  lemma DefaultIsNotStrict(target: TypeId)
    ensures !NewTypeHandler(target).strict
  {
  }

  /** Without `strict`, matching is exactly `isinstance`. */
  lemma LooseIsInstance(sub: (TypeId, TypeId) -> bool, target: TypeId, u: Update)
    ensures CheckUpdate(TypeHandler(target, false), sub, u) <==> IsInstance(sub, u, target)
  {
  }

  /** With `strict`, matching is exactly class identity. */
  lemma StrictIsIdentity(sub: (TypeId, TypeId) -> bool, target: TypeId, u: Update)
    ensures CheckUpdate(TypeHandler(target, true), sub, u) <==> TypeOf(u) == target
  {
  }

  /** A strict match is also a non-strict match. */
  lemma StrictImpliesLoose(sub: (TypeId, TypeId) -> bool, target: TypeId, u: Update)
    requires Reflexive(sub)
    ensures CheckUpdate(TypeHandler(target, true), sub, u) ==> CheckUpdate(TypeHandler(target, false), sub, u)
  {
  }

  /** An instance of a proper subclass matches non-strictly but not strictly. */
  lemma ProperSubclassOnlyLoose(sub: (TypeId, TypeId) -> bool, target: TypeId, u: Update)
    requires sub(TypeOf(u), target) && TypeOf(u) != target
    ensures CheckUpdate(TypeHandler(target, false), sub, u)
    ensures !CheckUpdate(TypeHandler(target, true), sub, u)
  {
  }

  /**
   * The two modes agree on an update exactly when its class is not a proper
   * subclass of the target.
   */
  lemma ModesAgreeIff(sub: (TypeId, TypeId) -> bool, target: TypeId, u: Update)
    requires Reflexive(sub)
    ensures CheckUpdate(TypeHandler(target, true), sub, u) == CheckUpdate(TypeHandler(target, false), sub, u)
        <==> !(sub(TypeOf(u), target) && TypeOf(u) != target)
  {
  }

  /**
   * A non-strict handler keeps every match when its target is widened to a
   * superclass.
   */
  lemma WideningKeepsMatches(sub: (TypeId, TypeId) -> bool, h: TypeHandler, wider: TypeId, u: Update)
    requires Reflexive(sub) && Transitive(sub)
    requires sub(h.target, wider)
    requires CheckUpdate(h, sub, u)
    ensures CheckUpdate(TypeHandler(wider, false), sub, u)
  {
  }

  /** A strict handler for `str` matches exactly the text updates. */
  lemma StrictStrMatchesText(sub: (TypeId, TypeId) -> bool, u: Update)
    ensures CheckUpdate(TypeHandler(StrType, true), sub, u) <==> u.Text?
  {
  }

}
