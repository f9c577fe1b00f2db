/** The tool resource shared by the store, the registry and the reconciler. */
module ToolResource {
  import opened Common

  /** A tool resource.  `content` stands for everything executable besides the identity
      and the owning module. */
  datatype Tool = Tool(
    name: string, version: string, moduleName: string, content: string, status: string,
    active: bool, serving: bool, digest: Digest, admission: Option<string>)
  {
    function Key(): RevisionKey {
      Revision(name, version)
    }
  }

  /** A digest is an injective image of the text it is taken of. */
  datatype Digest = NoDigest | Sha(resource: Tool)

  /** The copy a digest is taken of: lifecycle state, digest and admission record cleared. */
  function Cleared(t: Tool): Tool {
    t.(status := "", active := false, serving := false, digest := NoDigest, admission := None)
  }

  function CanonicalDigest(t: Tool): Digest {
    Sha(Cleared(t))
  }

  /** Two resources have one digest exactly if they agree in identity, module and content;
      what happens to a revision after its admission is no part of it. */
  lemma DigestCoversExecutableContent(a: Tool, b: Tool)
    ensures CanonicalDigest(a) == CanonicalDigest(b) <==>
            a.Key() == b.Key() && a.moduleName == b.moduleName && a.content == b.content
  {
  }
}
