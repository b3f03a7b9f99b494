/** Repository policies: which ones are accepted, and which limits an accepted one sets. */
module Policies {
  import opened Foundation

  /** A glob pattern; what it matches is given by a `Glob`. */
  type Pattern = nat
  type Glob = (Pattern, Tag) -> bool

  datatype PolicyType = TagProtection | Immutability | Retention | TagNaming | ManualDeletion | UnknownType

  datatype Policy = Policy(
    kind: PolicyType, enabled: bool, tagPatterns: seq<Pattern>, allowedPatterns: seq<Pattern>,
    preventOverwrite: bool, preventDeletion: bool, excludeFromLifecycle: bool, requireReason: bool,
    expireAfterDays: Option<int>, expireAfterDaysEnabled: Option<bool>,
    keepLast: Option<int>, keepLastEnabled: Option<bool>,
    untaggedGraceDays: Option<int>, untaggedGraceDaysEnabled: Option<bool>)

  /** An explicit switch wins; without one, a configured limit enables its criterion. */
  predicate CriterionEnabled(enabled: Option<bool>, limit: Option<int>) {
    if enabled.Some? then enabled.value else limit.Some?
  }

  predicate Within(value: Option<int>, minimum: int, maximum: int) {
    value.None? || minimum <= value.value <= maximum
  }

  predicate MatchesAnyTag(tag: Tag, patterns: seq<Pattern>, glob: Glob) {
    patterns == [] || exists p | p in patterns :: glob(p, tag)
  }

  predicate KeepLastOn(policy: Policy) {
    CriterionEnabled(policy.keepLastEnabled, policy.keepLast)
  }

  predicate ExpireOn(policy: Policy) {
    CriterionEnabled(policy.expireAfterDaysEnabled, policy.expireAfterDays)
  }

  predicate GraceOn(policy: Policy) {
    CriterionEnabled(policy.untaggedGraceDaysEnabled, policy.untaggedGraceDays)
  }

  predicate AcceptedShape(policy: Policy) {
    match policy.kind
    case TagProtection => policy.tagPatterns != []
    case Immutability => policy.tagPatterns != [] && policy.preventOverwrite
    case Retention =>
      && !(ExpireOn(policy) && policy.expireAfterDays.None?)
      && !(KeepLastOn(policy) && policy.keepLast.None?)
      && !(GraceOn(policy) && policy.untaggedGraceDays.None?)
      && !(policy.enabled && !ExpireOn(policy) && !KeepLastOn(policy) && !GraceOn(policy))
    case TagNaming => policy.allowedPatterns != []
    case ManualDeletion => true
    case UnknownType => false
  }

  predicate ValidatePolicy(policy: Policy, wellFormed: Pattern -> bool) {
    && AcceptedShape(policy)
    && |policy.tagPatterns| <= 32 && |policy.allowedPatterns| <= 32
    && (forall p | p in policy.tagPatterns + policy.allowedPatterns :: wellFormed(p))
    && Within(policy.expireAfterDays, 1, 3650)
    && Within(policy.untaggedGraceDays, 1, 3650)
    && Within(policy.keepLast, 1, 10000)
  }

  /** Every enabled criterion has its limit, so the evaluator never reads a missing one. */
  predicate LimitsPresent(policy: Policy) {
    && (ExpireOn(policy) ==> policy.expireAfterDays.Some?)
    && (KeepLastOn(policy) ==> policy.keepLast.Some? && 0 <= policy.keepLast.value)
    && (GraceOn(policy) ==> policy.untaggedGraceDays.Some?)
  }

  const Nanosecond := 1
  const Day := 24 * 3600 * 1_000_000_000 * Nanosecond
  const MaxDuration := 0x7fff_ffff_ffff_ffff

  /** A policy that was accepted is safe to evaluate: limits are there, and no duration overflows 64 bits. */
  lemma AcceptedPolicyIsSafe(policy: Policy, wellFormed: Pattern -> bool)
    requires ValidatePolicy(policy, wellFormed) && policy.kind.Retention?
    ensures LimitsPresent(policy)
    ensures policy.enabled ==> ExpireOn(policy) || KeepLastOn(policy) || GraceOn(policy)
    ensures ExpireOn(policy) ==> 0 < policy.expireAfterDays.value * Day <= MaxDuration
    ensures GraceOn(policy) ==> 0 < policy.untaggedGraceDays.value * Day <= MaxDuration
    ensures KeepLastOn(policy) ==> policy.keepLast.value >= 1
  {
    if ExpireOn(policy) {
      assert policy.expireAfterDays.value * Day <= 3650 * Day;
    }
    if GraceOn(policy) {
      assert policy.untaggedGraceDays.value * Day <= 3650 * Day;
    }
  }

  // ----- deleting by hand

  /** An enabled tag protection that prevents deletion covers the tag; without patterns it covers all of them. */
  ghost predicate Forbids(policy: Policy, tag: Tag, glob: Glob) {
    && policy.enabled && policy.kind == TagProtection && policy.preventDeletion
    && (policy.tagPatterns == [] || exists q :: q in policy.tagPatterns && glob(q, tag))
  }

  ghost predicate AsksForReason(policy: Policy) {
    policy.enabled && policy.kind == ManualDeletion && policy.requireReason
  }

  /** Deletion is allowed unless a tag is protected, or a reason is asked for and missing. */
  method EvaluateDeletion(policies: seq<Policy>, tags: seq<Tag>, blankReason: bool, glob: Glob) returns (allowed: bool)
    ensures allowed <==>
            && (forall p, t :: p in policies && t in tags ==> !Forbids(p, t, glob))
            && ((exists p :: p in policies && AsksForReason(p)) ==> !blankReason)
  {
    var requiresReason := false;
    for i := 0 to |policies|
      invariant requiresReason ==> exists p :: p in policies && AsksForReason(p)
      invariant forall p :: p in policies[..i] && AsksForReason(p) ==> requiresReason
    {
      assert policies[..i + 1] == policies[..i] + [policies[i]];
      if policies[i].enabled && policies[i].kind.ManualDeletion? && policies[i].requireReason {
        requiresReason := true;
        assert policies[i] in policies && AsksForReason(policies[i]);
      }
    }
    assert policies[..|policies|] == policies;
    for i := 0 to |policies|
      invariant forall p, t :: p in policies[..i] && t in tags ==> !Forbids(p, t, glob)
    {
      assert policies[..i + 1] == policies[..i] + [policies[i]];
      var policy := policies[i];
      if !policy.enabled || !policy.kind.TagProtection? || !policy.preventDeletion {
        continue;
      }
      for k := 0 to |tags|
        invariant forall t :: t in tags[..k] ==> !Forbids(policy, t, glob)
      {
        assert tags[..k + 1] == tags[..k] + [tags[k]];
        if MatchesAnyTag(tags[k], policy.tagPatterns, glob) {
          assert policy in policies && tags[k] in tags && Forbids(policy, tags[k], glob);
          return false;
        }
      }
      assert tags[..|tags|] == tags;
    }
    assert policies[..|policies|] == policies;
    allowed := !(requiresReason && blankReason);
  }
}
