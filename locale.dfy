/** `get_hierarchy_locale` (class-https.php lines 150-174): the site
    locale. A global `$locale` that is already set is returned, through
    the `locale` filter, without further lookup. Otherwise the locale is
    the `WPLANG` constant, replaced on a multisite install (outside
    installation) by the `WPLANG` option, or failing that the `WPLANG`
    site option, when either is not `false`; an empty result becomes
    `en_US`. The value is stored in the global and returned through the
    filter. */
module Locale {
  import opened Wrappers
  import opened Php

  const DefaultLocale := "en_US"

  /** What the function reads. `None` stands for an unset or null global,
      an undefined `WPLANG` constant, and an option lookup that returned
      `false`. */
  datatype Env = Env(
    global: Option<string>,
    wplang: Option<string>,
    multisite: bool,
    installing: bool,
    option: Option<string>,
    siteOption: Option<string>)

  /** The value returned and the value left in the global `$locale`. */
  datatype Lookup = Lookup(locale: string, global: string)

  /** `$ms_locale` of lines 161-163: the option, or the site option when
      the option is `false`. */
  function MultisiteLocale(env: Env): Option<string>
  {
    if env.option.Some? then env.option else env.siteOption
  }

  /** `$locale` before the `empty()` test of line 170. */
  function Candidate(env: Env): Option<string>
  {
    if env.multisite && !env.installing && MultisiteLocale(env).Some? then MultisiteLocale(env) else env.wplang
  }

  /** The function, with `filter` standing for the `locale` filter. */
  function GetHierarchyLocale(env: Env, filter: string -> string): (r: Lookup)
    ensures r.locale == filter(r.global)
    ensures env.global.Some? ==> r.global == env.global.value
    ensures env.global.None? ==> Truthy(Some(r.global))
  {
    if env.global.Some? then Lookup(filter(env.global.value), env.global.value)
    else
      var locale := if Truthy(Candidate(env)) then Candidate(env).value else DefaultLocale;
      Lookup(filter(locale), locale)
  }

  /** The lookup is done once: a second call, which finds the global set,
      returns the same locale and leaves the global as it is. */
  lemma LookupOnce(env: Env, filter: string -> string)
    ensures GetHierarchyLocale(env.(global := Some(GetHierarchyLocale(env, filter).global)), filter)
      == GetHierarchyLocale(env, filter)
  {
  }

  /** On a multisite install outside installation, an option that is not
      `false` decides, WPLANG and the site option notwithstanding; an
      empty option gives `en_US`. */
  lemma OptionDecides(env: Env, filter: string -> string)
    requires env.global.None? && env.multisite && !env.installing && env.option.Some?
    ensures GetHierarchyLocale(env, filter).global == if Truthy(env.option) then env.option.value else DefaultLocale
  {
  }

  /** The site option is read only when the option is `false`. */
  lemma SiteOptionFallback(env: Env, filter: string -> string)
    requires env.global.None? && env.multisite && !env.installing && env.option.None? && env.siteOption.Some?
    ensures GetHierarchyLocale(env, filter).global == if Truthy(env.siteOption) then env.siteOption.value else DefaultLocale
  {
  }

  /** Without a usable option, WPLANG decides. */
  lemma ConfigDecides(env: Env, filter: string -> string)
    requires env.global.None?
    requires !env.multisite || env.installing || (env.option.None? && env.siteOption.None?)
    ensures GetHierarchyLocale(env, filter).global == if Truthy(env.wplang) then env.wplang.value else DefaultLocale
  {
  }

  /** `en_US` is used exactly when the locale that decides is missing,
      empty, "0" (which PHP's `empty()` counts as empty) or `en_US` itself.
      The locale that decides is the option when it is not `false`, else
      the site option (both only on a multisite install outside
      installation), else `WPLANG`; an empty option is not passed over. */
  lemma DefaultExactly(env: Env, filter: string -> string)
    requires env.global.None?
    ensures GetHierarchyLocale(env, filter).global == DefaultLocale <==>
      !Truthy(Candidate(env)) || Candidate(env).value == DefaultLocale
  {
  }
}
