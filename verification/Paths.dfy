/** Slash-separated relative paths: strings.Split, filepath.Clean and the ingress
    gate's path check (pkg/contentstore/contentstore.go, checkPath). */
module Paths {
  datatype PathVerdict = Allowed | UnsafePath | AllowlistViolation

  /** strings.Split(p, "/") */
  function Split(p: string): (es: seq<string>)
    ensures es != [] && forall i :: 0 <= i < |es| ==> '/' !in es[i]
  {
    if p == "" then [""]
    else if p[0] == '/' then [""] + Split(p[1..])
    else
      var rest := Split(p[1..]);
      [[p[0]] + rest[0]] + rest[1..]
  }

  function Join(es: seq<string>): string
    requires es != []
  {
    if |es| == 1 then es[0] else es[0] + "/" + Join(es[1..])
  }

  /** One path element through filepath.Clean, for a path that is not rooted. */
  function CleanStep(out: seq<string>, e: string): seq<string> {
    if e == "" || e == "." then out
    else if e == ".." && out != [] && out[|out| - 1] != ".." then out[..|out| - 1]
    else out + [e]
  }

  function CleanElements(es: seq<string>): seq<string> {
    if es == [] then [] else CleanStep(CleanElements(es[..|es| - 1]), es[|es| - 1])
  }

  /** filepath.Clean on a path that is not rooted. */
  function Clean(p: string): string {
    var es := CleanElements(Split(p));
    if es == [] then "." else Join(es)
  }

  /** A clean list of elements: names, after going up any number of times. */
  ghost predicate CleanList(es: seq<string>) {
    && (forall i :: 0 <= i < |es| ==> es[i] != "" && es[i] != ".")
    && (forall i :: 0 <= i < |es| - 1 && es[i + 1] == ".." ==> es[i] == "..")
  }

  lemma {:induction false} CleanedIsClean(es: seq<string>)
    ensures CleanList(CleanElements(es))
  {
    if es != [] {
      CleanedIsClean(es[..|es| - 1]);
    }
  }

  lemma {:induction false} CleanStays(es: seq<string>)
    requires CleanList(es)
    ensures CleanElements(es) == es
  {
    if es != [] {
      var init := es[..|es| - 1];
      assert forall i :: 0 <= i < |init| ==> init[i] == es[i];
      CleanStays(init);
      assert es == init + [es[|es| - 1]];
    }
  }

  /** Cleaning one more element: "" and "." add nothing, a name is added, and ".." takes the
      last name back. */
  lemma CleanMore(es: seq<string>, e: string)
    ensures e == "" || e == "." ==> CleanElements(es + [e]) == CleanElements(es)
    ensures Proper(e) ==> CleanElements(es + [e]) == CleanElements(es) + [e]
    ensures Proper(e) ==> CleanElements(es + [e, ".."]) == CleanElements(es)
  {
    assert (es + [e])[..|es|] == es;
    assert (es + [e, ".."])[..|es| + 1] == es + [e];
  }

  predicate HasPrefix(p: string, prefix: string) {
    prefix <= p
  }

  predicate SafePath(p: string) {
    p != "" && p[0] != '/' && Clean(p) == p && ".." !in Split(p)
  }

  function CheckPath(p: string, allow: seq<string>): PathVerdict {
    if !SafePath(p) then UnsafePath
    else if exists i :: 0 <= i < |allow| && HasPrefix(p, allow[i]) then Allowed
    else AllowlistViolation
  }

  /** An element that names something in the directory it is read in. */
  predicate Proper(e: string) {
    e != "" && e != "." && e != ".."
  }

  lemma {:induction false} JoinSplit(p: string)
    ensures Join(Split(p)) == p
  {
    if p != "" {
      JoinSplit(p[1..]);
      var rest := Split(p[1..]);
      assert p == [p[0]] + p[1..];
      if p[0] == '/' {
        assert Split(p)[1..] == rest;
      } else {
        assert Split(p)[1..] == rest[1..];
        assert |rest| > 1 ==> [p[0]] + (rest[0] + "/" + Join(rest[1..])) == ([p[0]] + rest[0]) + "/" + Join(rest[1..]);
      }
    }
  }

  lemma {:induction false} SplitPlain(e: string)
    requires '/' !in e
    ensures Split(e) == [e]
  {
    if e != "" {
      SplitPlain(e[1..]);
      assert e == [e[0]] + e[1..];
    }
  }

  lemma {:induction false} SplitFirst(e: string, rest: string)
    requires '/' !in e
    ensures Split(e + "/" + rest) == [e] + Split(rest)
  {
    var p := e + "/" + rest;
    if e == "" {
      assert p[1..] == rest;
    } else {
      assert p[1..] == e[1..] + "/" + rest;
      SplitFirst(e[1..], rest);
      assert e == [e[0]] + e[1..];
    }
  }

  lemma {:induction false} SplitJoin(es: seq<string>)
    requires es != [] && forall i :: 0 <= i < |es| ==> '/' !in es[i]
    ensures Split(Join(es)) == es
  {
    if |es| == 1 {
      SplitPlain(es[0]);
    } else {
      SplitJoin(es[1..]);
      SplitFirst(es[0], Join(es[1..]));
    }
  }

  lemma {:induction false} CleanElementsShape(es: seq<string>)
    requires forall i :: 0 <= i < |es| ==> '/' !in es[i]
    ensures forall i :: 0 <= i < |CleanElements(es)| ==>
              var e := CleanElements(es)[i]; e != "" && e != "." && '/' !in e
  {
    if es != [] {
      CleanElementsShape(es[..|es| - 1]);
    }
  }

  lemma {:induction false} ProperElementsStay(es: seq<string>)
    requires forall i :: 0 <= i < |es| ==> Proper(es[i])
    ensures CleanElements(es) == es
  {
    if es != [] {
      ProperElementsStay(es[..|es| - 1]);
      assert es == es[..|es| - 1] + [es[|es| - 1]];
    }
  }

  lemma SafeIsProper(p: string)
    requires SafePath(p) && p != "."
    ensures forall e :: e in Split(p) ==> Proper(e)
  {
    var es := Split(p);
    CleanElementsShape(es);
    SplitJoin(CleanElements(es));
    assert es == CleanElements(es);
  }

  lemma ProperIsSafe(p: string)
    requires forall e :: e in Split(p) ==> Proper(e)
    ensures SafePath(p)
  {
    var es := Split(p);
    JoinSplit(p);
    ProperElementsStay(es);
    assert p == "" || p[0] == '/' ==> es[0] == "";
    assert Proper(es[0]);
  }

  lemma RootIsSafe()
    ensures SafePath(".")
  {
    SplitPlain(".");
    assert CleanElements(["."]) == CleanStep(CleanElements([]), ".");
  }

  /** A path the gate admits: every element is the name of something, and some prefix allows it. */
  ghost predicate Admitted(p: string, allow: seq<string>) {
    && (p == "." || forall e :: e in Split(p) ==> e != "" && e != "." && e != "..")
    && exists i :: 0 <= i < |allow| && allow[i] <= p
  }

  /** checkPath: which paths are admitted, and which of the two reasons the others get. */
  lemma CheckPathIff(p: string, allow: seq<string>)
    ensures CheckPath(p, allow).Allowed? <==> Admitted(p, allow)
    ensures CheckPath(p, allow).AllowlistViolation? <==>
            && (p == "." || forall e :: e in Split(p) ==> e != "" && e != "." && e != "..")
            && forall i :: 0 <= i < |allow| ==> !(allow[i] <= p)
  {
    SafePathIff(p);
  }

  /** The three lexical tests together admit the bare root and the paths whose every
      element is a proper name, and nothing else. */
  lemma SafePathIff(p: string)
    ensures SafePath(p) <==> p == "." || (forall e :: e in Split(p) ==> Proper(e))
  {
    RootIsSafe();
    if SafePath(p) && p != "." {
      SafeIsProper(p);
    }
    if forall e :: e in Split(p) ==> Proper(e) {
      ProperIsSafe(p);
    }
  }
}
