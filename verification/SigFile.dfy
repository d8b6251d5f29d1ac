/** The text of a signature file: what the producer writes, and how both verifiers cut it
    into lines (bufio.Scanner) and fields (strings.Fields). */
module SigFile {
  import opened Text
  import opened Signer

  /** bufio.MaxScanTokenSize */
  const MAX_TOKEN := 64 * 1024

  function WordEnd(s: string): (n: nat)
    ensures n <= |s| && (n < |s| ==> IsSpace(s[n])) && forall i :: 0 <= i < n ==> !IsSpace(s[i])
  {
    if s == "" || IsSpace(s[0]) then 0 else 1 + WordEnd(s[1..])
  }

  /** strings.Fields */
  function Words(s: string): seq<string> {
    if s == "" then []
    else if IsSpace(s[0]) then Words(s[1..])
    else [s[..WordEnd(s)]] + Words(s[WordEnd(s)..])
  }

  /** The lines of a text, each as its fields. A line that does not fit the scanner's
      buffer ends the scan. */
  function LinesOf(text: string): seq<Line> {
    if text == "" then []
    else
      var n := LineEnd(text);
      if n >= MAX_TOKEN then [TooLong]
      else [Fields(Words(text[..n]))] + if n == |text| then [] else LinesOf(text[n + 1..])
  }

  /** A signature as it is written: the signer's key id and the encoded signature. */
  datatype Signed = Signed(keyId: string, sig: string)

  predicate Plain(s: string) { s != "" && forall i :: 0 <= i < |s| ==> !IsSpace(s[i]) }

  function LineFor(s: Signed): string { ALG_ED25519 + " " + (s.keyId + " " + s.sig) }

  /** What bundle-sign writes to manifest.sig. */
  function TextOf(sigs: seq<Signed>): string {
    if sigs == [] then "" else LineFor(sigs[0]) + "\n" + TextOf(sigs[1..])
  }

  ghost predicate Writable(s: Signed) { Plain(s.keyId) && Plain(s.sig) && |LineFor(s)| < MAX_TOKEN }

  function FieldsFor(s: Signed): Line { Fields([ALG_ED25519, s.keyId, s.sig]) }

  function LinesFor(sigs: seq<Signed>): seq<Line> { seq(|sigs|, i requires 0 <= i < |sigs| => FieldsFor(sigs[i])) }

  lemma FirstWord(word: string, rest: string)
    requires Plain(word)
    ensures Words(word + " " + rest) == [word] + Words(rest)
  {
    var s := word + " " + rest;
    assert s[|word|] == ' ' && forall i :: 0 <= i < |word| ==> s[i] == word[i];
    assert WordEnd(s) == |word|;
    assert s[..|word|] == word && s[|word|..][1..] == rest;
  }

  lemma OnlyWord(word: string)
    requires Plain(word)
    ensures Words(word) == [word]
  {
    assert WordEnd(word) == |word|;
    assert word[..|word|] == word && word[|word|..] == "";
  }

  lemma LastWord(word: string)
    requires Plain(word)
    ensures Words(word + "\n") == [word]
  {
    var s := word + "\n";
    assert s[|word|] == '\n' && forall i :: 0 <= i < |word| ==> s[i] == word[i];
    assert WordEnd(s) == |word|;
    assert s[..|word|] == word && s[|word|..] == "\n" && "\n"[1..] == "";
  }

  lemma AlgorithmIsPlain()
    ensures Plain(ALG_ED25519) && '\n' !in ALG_ED25519
  {
  }

  lemma FieldsOfLine(s: Signed)
    requires Writable(s)
    ensures Words(LineFor(s)) == [ALG_ED25519, s.keyId, s.sig]
  {
    AlgorithmIsPlain();
    FirstWord(ALG_ED25519, s.keyId + " " + s.sig);
    FirstWord(s.keyId, s.sig);
    OnlyWord(s.sig);
  }

  lemma OneLine(s: Signed)
    requires Writable(s)
    ensures '\n' !in LineFor(s)
  {
    AlgorithmIsPlain();
    assert IsSpace('\n');
    assert '\n' !in s.keyId && '\n' !in s.sig;
  }

  lemma FirstLine(line: string, rest: string)
    requires '\n' !in line && |line| < MAX_TOKEN
    ensures LinesOf(line + "\n" + rest) == [Fields(Words(line))] + LinesOf(rest)
  {
    var text := line + "\n" + rest;
    assert text[|line|] == '\n' && text[..|line|] == line && text[|line| + 1..] == rest;
    assert LineEnd(text) == |line| by {
      assert forall i :: 0 <= i < |line| ==> text[i] == line[i] && line[i] != '\n';
    }
  }

  lemma LinesForFirst(sigs: seq<Signed>)
    requires sigs != []
    ensures LinesFor(sigs) == [FieldsFor(sigs[0])] + LinesFor(sigs[1..])
  {
  }

  /** The verifier reads back exactly the signatures the producer wrote, in order. */
  lemma {:induction false} WrittenLinesAreRead(sigs: seq<Signed>)
    requires forall s :: s in sigs ==> Writable(s)
    ensures LinesOf(TextOf(sigs)) == LinesFor(sigs)
  {
    if sigs != [] {
      FieldsOfLine(sigs[0]);
      OneLine(sigs[0]);
      FirstLine(LineFor(sigs[0]), TextOf(sigs[1..]));
      WrittenLinesAreRead(sigs[1..]);
      LinesForFirst(sigs);
    }
  }

  /** strings.Fields: blanks at the start are passed over, and a word goes up to the next blank
      or the end. */
  lemma {:induction false} WordsAre(blanks: string, word: string, rest: string)
    requires Blank(blanks) && Plain(word) && (rest != "" ==> IsSpace(rest[0]))
    ensures Words(blanks + word + rest) == [word] + Words(rest)
    ensures Words(blanks) == []
  {
    var s := blanks + word + rest;
    if blanks == "" {
      assert s[..|word|] == word && s[|word|..] == rest;
      assert forall i :: 0 <= i < |word| ==> s[i] == word[i];
      assert rest != "" ==> s[|word|] == rest[0];
      assert WordEnd(s) == |word|;
    } else {
      assert s[1..] == blanks[1..] + word + rest;
      WordsAre(blanks[1..], word, rest);
    }
  }

  /** The scanner: a line ends at a newline or at the end of the text, which is no line of its
      own, and one of 65536 bytes or more ends the scan. */
  lemma LinesAre(line: string, rest: string)
    requires '\n' !in line
    ensures |line| < 65536 ==>
              && LinesOf(line + "\n" + rest) == [Fields(Words(line))] + LinesOf(rest)
              && LinesOf(line) == if line == "" then [] else [Fields(Words(line))]
    ensures |line| >= 65536 ==> LinesOf(line + rest) == [TooLong]
  {
    if |line| < 65536 {
      FirstLine(line, rest);
      assert LineEnd(line) == |line| && line[..|line|] == line;
    } else {
      var n := LineEnd(line + rest);
      assert n < |line + rest| ==> (line + rest)[n] == '\n';
      assert forall i :: 0 <= i < |line| ==> (line + rest)[i] == line[i];
    }
  }
}
