/** pkg/manifest: the one byte form of a manifest, and the parser that insists on it.

    JSON is a pair of functions: `enc` is the encoder, newline included; `dec` decodes
    the first value of its input and says whether more follows. */
module Manifest {
  import opened Text
  import opened ContentStore

  type Version = n: nat | n < UINT64

  const SCHEMA := "arazu.bundle/v1"

  datatype Manifest = Manifest(schema: string, bundleId: string, version: Version, created: string, files: seq<File>)

  datatype Json = Json(enc: Manifest -> string, dec: string -> Option<(Manifest, bool)>)

  predicate IsNewline(c: char) { c == '\n' }

  function TrimNewlines(b: string): string { TrimRight(b, IsNewline) }

  function Ordered(m: Manifest): Manifest { m.(files := SortBy(m.files, PathOf)) }

  function Canonical(j: Json, m: Manifest): string { TrimNewlines(j.enc(Ordered(m))) }

  /** Parse: the only error is "manifest-parse". */
  function Parse(j: Json, b: string): Option<Manifest> {
    match j.dec(b)
    case None => None
    case Some((m, more)) =>
      if more || m.schema != SCHEMA || Canonical(j, m) != TrimNewlines(b) then None else Some(m)
  }

  /** What JSON gives for a manifest whose strings are valid UTF-8: its encoding, with any
      newlines after it, reads back as it was. */
  ghost predicate Lossless(j: Json, m: Manifest) {
    forall b :: TrimNewlines(b) == TrimNewlines(j.enc(m)) ==> j.dec(b) == Some((m, false))
  }

  /** Accepted manifests have one spelling, up to newlines at the end. */
  lemma OneSpelling(j: Json, a: string, b: string)
    requires Parse(j, a).Some? && Parse(j, b).Some?
    ensures Parse(j, a) == Parse(j, b) ==> TrimNewlines(a) == TrimNewlines(b)
    ensures TrimNewlines(a) == TrimNewlines(b) && Lossless(j, Ordered(Parse(j, a).value)) ==> Parse(j, a) == Parse(j, b)
  {
    if TrimNewlines(a) == TrimNewlines(b) && Lossless(j, Ordered(Parse(j, a).value)) {
      assert TrimNewlines(j.enc(Ordered(Parse(j, a).value))) == TrimNewlines(b);
    }
  }

  /** What the re-serialisation check amounts to: a manifest is accepted exactly when the
      bytes are its encoding, it has the schema, and its files are in path order. */
  lemma ParseIff(j: Json, b: string, m: Manifest)
    requires Lossless(j, Ordered(m))
    ensures Parse(j, b) == Some(m) <==>
            m.schema == "arazu.bundle/v1" && Sorted(m.files, PathOf) && TrimNewlines(b) == TrimNewlines(j.enc(m))
  {
    if Sorted(m.files, PathOf) {
      SortOfSorted(m.files, PathOf);
    }
    if Parse(j, b) == Some(m) {
      assert j.dec(b) == Some((Ordered(m), false));
      SortBySorted(m.files, PathOf);
    }
  }

  /** Whatever JSON loses: what parses is followed by nothing, has the schema, and is the
      encoding of its manifest with the files in path order, up to newlines at the end. */
  lemma ParsedIsCanonical(j: Json, b: string)
    requires Parse(j, b).Some?
    ensures var m := Parse(j, b).value;
            && j.dec(b) == Some((m, false)) && m.schema == "arazu.bundle/v1"
            && exists sorted, ends, ends' ::
                 && IsSortOf(sorted, m.files, PathOf) && OnlyNewlines(ends) && OnlyNewlines(ends')
                 && b + ends == j.enc(m.(files := sorted)) + ends'
  {
    var m := Parse(j, b).value;
    SortBySorted(m.files, PathOf);
    TrimRightShape(b, IsNewline);
    TrimRightShape(j.enc(Ordered(m)), IsNewline);
    var t := TrimNewlines(b);
    var more, less := b[|t|..], j.enc(Ordered(m))[|t|..];
    assert b + less == t + (more + less) && j.enc(Ordered(m)) + more == t + (less + more);
    NewlinesCommute(more, less);
    assert b + less == j.enc(m.(files := SortBy(m.files, PathOf))) + more;
  }

  predicate OnlyNewlines(s: string) { forall i :: 0 <= i < |s| ==> s[i] == '\n' }

  lemma NewlinesCommute(a: string, b: string)
    requires OnlyNewlines(a) && OnlyNewlines(b)
    ensures a + b == b + a
  {
  }
}
