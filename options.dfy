/** The option bits a persister is created with (PoetryOptions.kt). Options
    are a 32-bit set of flags combined with bitwise or. */
module Options {

  const DISABLE_FOREIGN_COLLECTION_CLEANUP: bv32 := 0x0001
  const DISABLE_IGNORED_ATTRIBUTES_WARNING: bv32 := 0x0002
  const DEFAULT: bv32 := 0

  /** True when every flag of `optionCheck` is set in `optionsSet`. */
  predicate IsEnabled(optionsSet: bv32, optionCheck: bv32)
  {
    optionsSet & optionCheck == optionCheck
  }

  /** A combination of flags is enabled only if each part is. */
  lemma CombinationNeedsEachPart(optionsSet: bv32, a: bv32, b: bv32)
    requires IsEnabled(optionsSet, a | b)
    ensures IsEnabled(optionsSet, a)
  {
  }

  /** A combination of flags is enabled once each part is. */
  lemma PartsEnableCombination(optionsSet: bv32, a: bv32, b: bv32)
    requires IsEnabled(optionsSet, a) && IsEnabled(optionsSet, b)
    ensures IsEnabled(optionsSet, a | b)
  {
  }

  /** Adding flags to a set enables them. */
  lemma AddingEnables(optionsSet: bv32, optionCheck: bv32)
    ensures IsEnabled(optionsSet | optionCheck, optionCheck)
  {
  }

  /** The default enables neither named option, and neither named option
      enables the other. */
  lemma NamedOptionsIndependent()
    ensures !IsEnabled(DEFAULT, DISABLE_FOREIGN_COLLECTION_CLEANUP)
    ensures !IsEnabled(DEFAULT, DISABLE_IGNORED_ATTRIBUTES_WARNING)
    ensures !IsEnabled(DISABLE_IGNORED_ATTRIBUTES_WARNING, DISABLE_FOREIGN_COLLECTION_CLEANUP)
    ensures !IsEnabled(DISABLE_FOREIGN_COLLECTION_CLEANUP, DISABLE_IGNORED_ATTRIBUTES_WARNING)
  {
  }
}
