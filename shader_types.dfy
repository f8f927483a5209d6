/**
  Values shared by every stripper: shaders, compiled variants and the
  mutable variant list that the compiler front end hands to each stripper.
  Unity's engine objects are reduced to the plain inputs the strippers read.
 */
module ShaderTypes {

  datatype Option<T> = None | Some(value: T)

  /** Unity's PassType enumeration, by its integer code. */
  type PassType = int

  /** Unity's ShaderCompilerPlatform enumeration, by its integer code. */
  type ShaderCompilerPlatform = int

  /**
    A shader asset. `id` stands for the object's identity; the other fields are
    what the strippers obtain from the engine: the shader's name, its asset path
    (empty for built-in shaders) and the GUID / local file id of its asset.
   */
  datatype Shader = Shader(id: nat, name: string, assetPath: string, guid: string, fileID: int)

  /**
    One compiled variant (ShaderCompilerData): the names of its shader keywords,
    its compiler platform, and the names of the built-in platform defines that
    are enabled for it, in enumeration order.
   */
  datatype CompilerData = CompilerData(
    keywords: seq<string>,
    platform: ShaderCompilerPlatform,
    platformKeywords: seq<string>)

  /** The IList<ShaderCompilerData> that strippers edit in place. */
  class VariantList {
    var items: seq<CompilerData>

    constructor (items: seq<CompilerData>)
      ensures this.items == items
    {
      this.items := items;
    }

    function Count(): (n: nat)
      reads this
      ensures n == |items|
    {
      |items|
    }

    /** IList.RemoveAt: the element at index i goes, the others close up. */
    method RemoveAt(i: nat)
      requires i < |items|
      modifies this
      ensures items == old(items[..i]) + old(items[i + 1..])
    {
      items := items[..i] + items[i + 1..];
    }

    /** IList.Clear. */
    method Clear()
      modifies this
      ensures items == []
    {
      items := [];
    }
  }
}
