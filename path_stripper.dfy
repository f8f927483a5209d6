/**
  ShaderStripperPath: matches shaders by their asset path against a
  blacklist of string patterns. The editor and runtime assemblies carry the
  same MatchShader; this module models both.
 */
module PathStripper {

  /** Some pattern of the blacklist (StringMatch.Evaluate) accepts the path. */
  predicate Blacklisted(pathBlacklist: seq<string -> bool>, path: string) {
    exists k :: 0 <= k < |pathBlacklist| && pathBlacklist[k](path)
  }

  /**
    MatchShader's answer as the code gives it: built-in shaders (empty asset
    path) never match; a blacklist hit returns true, and so does the
    statement after the loop.
   */
  function MatchShaderAsWritten(pathBlacklist: seq<string -> bool>, path: string): bool {
    if path == "" then false
    else if Blacklisted(pathBlacklist, path) then true
    else true
  }

  method MatchShader(pathBlacklist: seq<string -> bool>, path: string) returns (matched: bool)
    ensures matched == MatchShaderAsWritten(pathBlacklist, path)
  {
    if path == "" {
      return false;
    }
    var i := 0;
    while i < |pathBlacklist|
      invariant 0 <= i <= |pathBlacklist|
      invariant forall k :: 0 <= k < i ==> !pathBlacklist[k](path)
    {
      if pathBlacklist[i](path) {
        return true;
      }
      i := i + 1;
    }
    return true;
  }

  /** As written, the blacklist makes no difference: every shader with an asset path matches. */
  lemma MatchShaderIgnoresBlacklist(pathBlacklist: seq<string -> bool>, path: string)
    ensures MatchShaderAsWritten(pathBlacklist, path) <==> path != ""
  {
  }

  /** A path that no pattern accepts: the code as written still matches it. */
  lemma UnlistedPathMatches()
    ensures var never := (p: string) => false;
            && !Blacklisted([never], "Assets/Water.shader")
            && MatchShaderAsWritten([never], "Assets/Water.shader")
  {
  }

  /** The evidently intended answer: an asset path that some blacklist pattern accepts. */
  function MatchShaderIntended(pathBlacklist: seq<string -> bool>, path: string): bool {
    path != "" && Blacklisted(pathBlacklist, path)
  }

  /** MatchShader with the final statement returning false. */
  method MatchShaderCorrected(pathBlacklist: seq<string -> bool>, path: string) returns (matched: bool)
    ensures matched == MatchShaderIntended(pathBlacklist, path)
  {
    if path == "" {
      return false;
    }
    var i := 0;
    while i < |pathBlacklist|
      invariant 0 <= i <= |pathBlacklist|
      invariant forall k :: 0 <= k < i ==> !pathBlacklist[k](path)
    {
      if pathBlacklist[i](path) {
        return true;
      }
      i := i + 1;
    }
    return false;
  }

  /**
    The corrected matcher never matches built-in shaders, matches every path a
    pattern accepts, matches nothing with an empty blacklist, and differs from
    the code as written exactly on the paths no pattern accepts.
   */
  lemma MatchShaderIntendedProperties(pathBlacklist: seq<string -> bool>, path: string)
    ensures !MatchShaderIntended(pathBlacklist, "")
    ensures path != "" && Blacklisted(pathBlacklist, path) ==> MatchShaderIntended(pathBlacklist, path)
    ensures !MatchShaderIntended([], path)
    ensures MatchShaderIntended(pathBlacklist, path) != MatchShaderAsWritten(pathBlacklist, path)
            <==> path != "" && !Blacklisted(pathBlacklist, path)
  {
  }
}
