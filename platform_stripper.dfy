/**
  ShaderStripperPlatform: matches compiled variants by their shader compiler
  platform, the listed platforms being a blacklist or, with `whitelist` set,
  the only platforms that are kept. The editor and runtime assemblies carry
  the same MatchVariant; this module models both.
 */
module PlatformStripper {
  import opened ShaderTypes

  /** The serialized settings: `_whitelist` and `_platforms`. */
  datatype PlatformSettings = PlatformSettings(whitelist: bool, platforms: seq<ShaderCompilerPlatform>)

  /** A variant matches (and is stripped) when its platform is listed, or, for a whitelist, unlisted. */
  function MatchVariant(settings: PlatformSettings, variant: CompilerData): (matched: bool)
    ensures !settings.whitelist ==> (matched <==> variant.platform in settings.platforms)
    ensures settings.whitelist ==> (matched <==> variant.platform !in settings.platforms)
  {
    var contains := variant.platform in settings.platforms;
    if settings.whitelist then !contains else contains
  }

  /** Switching between whitelist and blacklist turns every answer round. */
  lemma ModesAreComplementary(platforms: seq<ShaderCompilerPlatform>, variant: CompilerData)
    ensures MatchVariant(PlatformSettings(true, platforms), variant)
            == !MatchVariant(PlatformSettings(false, platforms), variant)
  {
  }

  /** Only the variant's platform and the set of listed platforms decide. */
  lemma MatchDependsOnPlatformSetOnly(s1: PlatformSettings, s2: PlatformSettings, v1: CompilerData, v2: CompilerData)
    requires s1.whitelist == s2.whitelist
    requires forall p :: p in s1.platforms <==> p in s2.platforms
    requires v1.platform == v2.platform
    ensures MatchVariant(s1, v1) == MatchVariant(s2, v2)
  {
  }

  /** With no platforms listed, a blacklist strips nothing and a whitelist strips everything. */
  lemma EmptyPlatformList(whitelist: bool, variant: CompilerData)
    ensures MatchVariant(PlatformSettings(whitelist, []), variant) == whitelist
  {
  }
}
