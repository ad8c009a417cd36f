// The UCI to CNTK text format converter script: the default output file name and the
// rewrite of one whitespace-separated UCI line into one CNTK text format line. Argument
// parsing and the file reads and writes around it are not part of this model; a file is
// the list of its lines, as readlines() returns it.

module UciToCntkText {

  /** What the script raises on a malformed line: int() of a token that is not a decimal
      literal (ValueError), or a label outside the dense label list (IndexError). */
  datatype Fault = InvalidLiteral(token: string) | IndexOutOfRange(index: int)

  datatype Outcome<T> = Ok(value: T) | Raised(fault: Fault)

  /** The converter's arguments; labelsDim is 1 unless given. */
  datatype Arguments = Arguments(featuresStart: int, featuresDim: int, labelsStart: int, labelsDim: int, numLabels: int)

  const Suffix: string := "_cntk_text"
  const LabelsTag: string := "|labels"
  const FeaturesTag: string := "|features"

  // ---------------------------------------------------------------------------------
  // Output file name
  // ---------------------------------------------------------------------------------

  /** No '.' at index k or after it. */
  predicate NoDotFrom(s: string, k: nat) {
    forall j :: k <= j < |s| ==> s[j] != '.'
  }

  /** rfind("."): the index of the last '.', or -1 when there is none. */
  function LastDot(s: string): (r: int)
    ensures -1 <= r < |s|
    ensures r == -1 <==> NoDotFrom(s, 0)
    ensures r >= 0 ==> s[r] == '.' && NoDotFrom(s, r + 1)
  {
    if s == [] then -1
    else if s[|s| - 1] == '.' then |s| - 1
    else LastDot(s[..|s| - 1])
  }

  /** Where the suffix goes: before the last '.', or at the end when there is none. */
  function InsertionPoint(fileIn: string): (dot: nat)
    ensures dot <= |fileIn|
  {
    var r := LastDot(fileIn);
    if r == -1 then |fileIn| else r
  }

  /** The output file name derived from the input file name. */
  function DefaultOutputName(fileIn: string): (out: string)
    ensures |out| == |fileIn| + |Suffix|
  {
    var dot := InsertionPoint(fileIn);
    fileIn[..dot] + Suffix + fileIn[dot..]
  }

  /** The output file: the one given, unless it is missing or empty. */
  function OutputFile(outputFile: string, fileIn: string): (out: string)
    ensures outputFile != [] ==> out == outputFile
    ensures outputFile == [] ==> out == DefaultOutputName(fileIn)
  {
    if outputFile == [] then DefaultOutputName(fileIn) else outputFile
  }

  /** The derived name is the input with "_cntk_text" inserted right before its last
      '.', or appended when there is no '.': the text before and after the insertion
      point is the input's. */
  lemma DefaultOutputNameInserts(fileIn: string)
    ensures NoDotFrom(fileIn, 0) ==> DefaultOutputName(fileIn) == fileIn + Suffix
    ensures !NoDotFrom(fileIn, 0) ==>
              exists dot :: 0 <= dot < |fileIn| && fileIn[dot] == '.' && NoDotFrom(fileIn, dot + 1)
                            && DefaultOutputName(fileIn) == fileIn[..dot] + Suffix + fileIn[dot..]
  {
    var dot := InsertionPoint(fileIn);
    if NoDotFrom(fileIn, 0) {
      assert fileIn[..dot] == fileIn && fileIn[dot..] == [];
    } else {
      assert fileIn[dot] == '.';
    }
  }

  /** Taking the suffix back out of the derived name gives the input name. */
  lemma DefaultOutputNameRoundTrip(fileIn: string)
    ensures var out := DefaultOutputName(fileIn);
            var dot := InsertionPoint(fileIn);
            && out[dot..dot + |Suffix|] == Suffix
            && out[..dot] + out[dot + |Suffix|..] == fileIn
  {
    var out := DefaultOutputName(fileIn);
    var dot := InsertionPoint(fileIn);
    assert out[..dot] == fileIn[..dot];
    assert out[dot..dot + |Suffix|] == Suffix;
    assert out[dot + |Suffix|..] == fileIn[dot..];
    assert fileIn[..dot] + fileIn[dot..] == fileIn;
  }

  /** The last '.' is the one with no '.' after it. */
  lemma LastDotUnique(s: string, r: nat)
    requires r < |s| && s[r] == '.' && NoDotFrom(s, r + 1)
    ensures LastDot(s) == r
  {
  }

  /** The derived name keeps the input's extension: what follows its last '.' is what
      follows the input's, and it has a '.' exactly when the input has one. */
  lemma DefaultOutputNameKeepsExtension(fileIn: string)
    ensures var out := DefaultOutputName(fileIn);
            && (NoDotFrom(out, 0) <==> NoDotFrom(fileIn, 0))
            && (!NoDotFrom(fileIn, 0) ==> out[LastDot(out)..] == fileIn[LastDot(fileIn)..])
  {
    var out := DefaultOutputName(fileIn);
    var dot := InsertionPoint(fileIn);
    if !NoDotFrom(fileIn, 0) {
      var e := dot + |Suffix|;
      assert out[e..] == fileIn[dot..];
      assert out[e] == '.';
      LastDotUnique(out, e);
    } else {
      assert out == fileIn + Suffix;
      assert Suffix == "_cntk_text";
    }
  }

  // ---------------------------------------------------------------------------------
  // Tokens: str.split() and " ".join
  // ---------------------------------------------------------------------------------

  /** The characters str.split() without arguments splits on. */
  predicate IsSpace(c: char) {
    c == ' ' || c == '\t' || c == '\n' || c == '\r' || c == '\U{B}' || c == '\U{C}'
  }

  /** A token of str.split(): not empty, no whitespace. */
  predicate IsWord(w: string) {
    |w| > 0 && forall i :: 0 <= i < |w| ==> !IsSpace(w[i])
  }

  /** The length of the token at the front of s. */
  function WordLength(s: string): (n: nat)
    requires s != [] && !IsSpace(s[0])
    ensures 1 <= n <= |s| && IsWord(s[..n]) && (n == |s| || IsSpace(s[n]))
  {
    if |s| == 1 || IsSpace(s[1]) then 1
    else
      var n := 1 + WordLength(s[1..]);
      assert s[..n] == [s[0]] + s[1..][..n - 1];
      n
  }

  /** str.split(): the maximal runs of non-whitespace characters, in order. */
  function Split(s: string): (r: seq<string>)
    ensures forall k :: 0 <= k < |r| ==> IsWord(r[k])
    decreases |s|
  {
    if s == [] then []
    else if IsSpace(s[0]) then Split(s[1..])
    else
      var n := WordLength(s);
      [s[..n]] + Split(s[n..])
  }

  /** " ".join(words). */
  function Join(words: seq<string>): (r: string)
    ensures words == [] ==> r == []
  {
    if words == [] then []
    else if |words| == 1 then words[0]
    else words[0] + " " + Join(words[1..])
  }

  /** A token followed by whitespace or the end is read whole. */
  lemma {:induction false} WordLengthOfWord(w: string, rest: string)
    requires IsWord(w) && (rest == [] || IsSpace(rest[0]))
    ensures WordLength(w + rest) == |w|
    decreases |w|
  {
    var s := w + rest;
    if |w| > 1 {
      assert s[1..] == w[1..] + rest;
      WordLengthOfWord(w[1..], rest);
    }
  }

  /** The front token of x is the front token of x followed by whitespace. */
  lemma {:induction false} WordLengthBeforeSpace(x: string, t: string)
    requires x != [] && !IsSpace(x[0]) && t != [] && IsSpace(t[0])
    ensures WordLength(x + t) == WordLength(x)
    decreases |x|
  {
    var s := x + t;
    if |x| > 1 && !IsSpace(x[1]) {
      assert s[1..] == x[1..] + t;
      WordLengthBeforeSpace(x[1..], t);
    }
  }

  /** A whitespace character separates: splitting x c y splits x and y apart. */
  lemma {:induction false} SplitAtSpace(x: string, c: char, y: string)
    requires IsSpace(c)
    ensures Split(x + [c] + y) == Split(x) + Split(y)
    decreases |x|
  {
    var s := x + [c] + y;
    if x == [] {
      assert s == [c] + y && s[1..] == y;
    } else if IsSpace(x[0]) {
      assert s[1..] == x[1..] + [c] + y;
      SplitAtSpace(x[1..], c, y);
    } else {
      WordLengthBeforeSpace(x, [c] + y);
      assert s == x + ([c] + y);
      var n := WordLength(x);
      assert s[..n] == x[..n];
      assert s[n..] == x[n..] + [c] + y;
      SplitAtSpace(x[n..], c, y);
    }
  }

  /** A single token splits to itself. */
  lemma SplitWord(w: string)
    requires IsWord(w)
    ensures Split(w) == [w]
  {
    WordLengthOfWord(w, []);
    assert w + [] == w;
    assert w[|w|..] == [];
  }

  /** Joining tokens with single spaces and splitting again gives the tokens back. */
  lemma {:induction false} SplitJoin(words: seq<string>)
    requires forall k :: 0 <= k < |words| ==> IsWord(words[k])
    ensures Split(Join(words)) == words
    decreases |words|
  {
    if |words| == 1 {
      SplitWord(words[0]);
    } else if |words| > 1 {
      SplitAtSpace(words[0], ' ', Join(words[1..]));
      assert words[0] + " " + Join(words[1..]) == words[0] + [' '] + Join(words[1..]);
      SplitWord(words[0]);
      SplitJoin(words[1..]);
    }
  }

  // ---------------------------------------------------------------------------------
  // Slices and indices with Python's semantics
  // ---------------------------------------------------------------------------------

  /** A slice bound: a negative one counts from the end, and both are clamped. */
  function SliceBound(i: int, length: nat): (b: nat)
    ensures b <= length
    ensures 0 <= i <= length ==> b == i
  {
    if i < 0 then (if i + length < 0 then 0 else i + length)
    else if i > length then length
    else i
  }

  /** xs[lo:hi]. */
  function Slice<T>(xs: seq<T>, lo: int, hi: int): (r: seq<T>)
    ensures |r| <= |xs|
  {
    var a := SliceBound(lo, |xs|);
    var b := SliceBound(hi, |xs|);
    if a < b then xs[a..b] else []
  }

  /** A slice from a start within the list takes the `dim` elements from it, or as many
      as the list still holds: a short line is cut without complaint. */
  lemma SliceFrom<T>(xs: seq<T>, start: int, dim: int)
    requires 0 <= start <= |xs| && 0 <= dim
    ensures var r := Slice(xs, start, start + dim);
            && |r| == (if start + dim <= |xs| then dim else |xs| - start)
            && forall k :: 0 <= k < |r| ==> r[k] == xs[start + k]
  {
  }

  /** A list index: negative ones count from the end; anything else raises IndexError. */
  predicate InIndexRange(i: int, length: nat) {
    -(length as int) <= i < length
  }

  function Position(i: int, length: nat): (p: nat)
    requires InIndexRange(i, length)
    ensures p < length
    ensures i >= 0 ==> p == i
    ensures i < 0 ==> p == i + length
  {
    if i < 0 then i + length else i
  }

  // ---------------------------------------------------------------------------------
  // int() of a token
  // ---------------------------------------------------------------------------------

  predicate IsDigit(c: char) {
    '0' <= c <= '9'
  }

  function DigitValue(c: char): nat
    requires IsDigit(c)
  {
    (c as int) - ('0' as int)
  }

  predicate AllDigits(s: string) {
    forall i :: 0 <= i < |s| ==> IsDigit(s[i])
  }

  /** The value of a string of decimal digits, most significant first. */
  function DigitsValue(s: string): nat
    requires AllDigits(s)
  {
    if s == [] then 0 else 10 * DigitsValue(s[..|s| - 1]) + DigitValue(s[|s| - 1])
  }

  /** int(token): an optional sign and at least one decimal digit; nothing else parses. */
  function ParseInt(s: string): (r: Option<int>)
    ensures r.Some? ==> s != [] && (IsDigit(s[0]) || s[0] == '-' || s[0] == '+')
  {
    var neg := s != [] && s[0] == '-';
    var digits := if s != [] && (s[0] == '-' || s[0] == '+') then s[1..] else s;
    if digits == [] || !AllDigits(digits) then None
    else Some(if neg then -(DigitsValue(digits) as int) else DigitsValue(digits))
  }

  datatype Option<T> = None | Some(value: T)

  /** str(n): the shortest decimal literal of n. */
  function NaturalLiteral(n: nat): (s: string)
    ensures |s| >= 1 && AllDigits(s)
  {
    if n < 10 then [('0' as int + n) as char]
    else NaturalLiteral(n / 10) + [('0' as int + n % 10) as char]
  }

  function Literal(n: int): string {
    if n < 0 then "-" + NaturalLiteral(-n) else NaturalLiteral(n)
  }

  lemma {:induction false} NaturalLiteralValue(n: nat)
    ensures DigitsValue(NaturalLiteral(n)) == n
    decreases n
  {
    var s := NaturalLiteral(n);
    if n >= 10 {
      NaturalLiteralValue(n / 10);
      assert s[..|s| - 1] == NaturalLiteral(n / 10);
    }
  }

  /** int() reads back every integer's decimal literal. */
  lemma ParseLiteral(n: int)
    ensures ParseInt(Literal(n)) == Some(n)
  {
    if n < 0 {
      ParseNegative(-n);
    } else {
      ParseNatural(n);
    }
  }

  lemma ParseNatural(n: nat)
    ensures ParseInt(NaturalLiteral(n)) == Some(n)
  {
    var s := NaturalLiteral(n);
    assert IsDigit(s[0]);
    NaturalLiteralValue(n);
  }

  lemma ParseNegative(n: nat)
    requires n > 0
    ensures ParseInt("-" + NaturalLiteral(n)) == Some(-(n as int))
  {
    var d := NaturalLiteral(n);
    var s := "-" + d;
    assert s[0] == '-' && s[1..] == d;
    NaturalLiteralValue(n);
  }

  // ---------------------------------------------------------------------------------
  // Dense labels
  // ---------------------------------------------------------------------------------

  /** len(['0'] * numLabels). */
  function LabelCount(numLabels: int): nat {
    if numLabels < 0 then 0 else numLabels
  }

  /** The dense label list after the labels in turn: each is read with int() and sets
      '1' at that index of ['0'] * size; the first label that does not parse or does
      not index the list raises. */
  function DenseOf(labels: seq<string>, size: nat): (r: Outcome<seq<string>>)
    ensures r.Ok? ==> |r.value| == size
    decreases |labels|
  {
    if labels == [] then Ok(seq(size, _ => "0"))
    else
      var last := labels[|labels| - 1];
      match DenseOf(labels[..|labels| - 1], size)
      case Raised(f) => Raised(f)
      case Ok(dense) =>
        match ParseInt(last)
        case None => Raised(InvalidLiteral(last))
        case Some(i) => if InIndexRange(i, size) then Ok(dense[Position(i, size) := "1"]) else Raised(IndexOutOfRange(i))
  }

  /** A label int() reads and that indexes a list of `size` entries. */
  predicate Accepted(token: string, size: nat) {
    ParseInt(token).Some? && InIndexRange(ParseInt(token).value, size)
  }

  /** Every label is accepted. */
  predicate LabelsAccepted(labels: seq<string>, size: nat) {
    forall j :: 0 <= j < |labels| ==> Accepted(labels[j], size)
  }

  /** The positions the accepted labels name. */
  function Marked(labels: seq<string>, size: nat): (m: set<nat>)
    requires LabelsAccepted(labels, size)
    ensures forall p :: p in m ==> p < size
  {
    set j | 0 <= j < |labels| :: Position(ParseInt(labels[j]).value, size)
  }

  /** The first label that is not accepted, with what it raises. */
  function FirstRejected(labels: seq<string>, size: nat): (f: Option<Fault>)
    decreases |labels|
  {
    if labels == [] then None
    else
      var front := FirstRejected(labels[..|labels| - 1], size);
      var last := labels[|labels| - 1];
      if front.Some? then front
      else match ParseInt(last)
        case None => Some(InvalidLiteral(last))
        case Some(i) => if InIndexRange(i, size) then None else Some(IndexOutOfRange(i))
  }

  /** The labels are accepted exactly when their front is and the last one is. */
  lemma AcceptedSplit(labels: seq<string>, size: nat)
    requires labels != []
    ensures LabelsAccepted(labels, size)
            <==> LabelsAccepted(labels[..|labels| - 1], size) && Accepted(labels[|labels| - 1], size)
  {
    var front := labels[..|labels| - 1];
    if LabelsAccepted(front, size) && Accepted(labels[|labels| - 1], size) {
      forall j | 0 <= j < |labels| ensures Accepted(labels[j], size) {
        if j < |front| {
          assert labels[j] == front[j];
        }
      }
    }
  }

  /** The accepted labels mark what their front marks, and the last label's position. */
  lemma MarkedSplit(labels: seq<string>, size: nat)
    requires labels != [] && LabelsAccepted(labels, size)
    ensures LabelsAccepted(labels[..|labels| - 1], size)
    ensures Marked(labels, size)
            == Marked(labels[..|labels| - 1], size) + {Position(ParseInt(labels[|labels| - 1]).value, size)}
  {
    AcceptedSplit(labels, size);
    MarkedWithin(labels, size);
    MarkedKept(labels, size);
  }

  lemma MarkedWithin(labels: seq<string>, size: nat)
    requires labels != [] && LabelsAccepted(labels, size) && LabelsAccepted(labels[..|labels| - 1], size)
    ensures Marked(labels, size)
            <= Marked(labels[..|labels| - 1], size) + {Position(ParseInt(labels[|labels| - 1]).value, size)}
  {
    var front := labels[..|labels| - 1];
    forall p | p in Marked(labels, size) ensures p in Marked(front, size) + {Position(ParseInt(labels[|labels| - 1]).value, size)} {
      var j :| 0 <= j < |labels| && p == Position(ParseInt(labels[j]).value, size);
      MarkedFrontOrLast(labels, size, j);
    }
  }

  /** A label's position is marked by the labels before the last one, or is the last one's. */
  lemma MarkedFrontOrLast(labels: seq<string>, size: nat, j: nat)
    requires j < |labels| && LabelsAccepted(labels, size) && LabelsAccepted(labels[..|labels| - 1], size)
    ensures Position(ParseInt(labels[j]).value, size)
            in Marked(labels[..|labels| - 1], size) + {Position(ParseInt(labels[|labels| - 1]).value, size)}
  {
    if j < |labels| - 1 {
      assert labels[j] == labels[..|labels| - 1][j];
      MarkedAt(labels[..|labels| - 1], size, j);
    }
  }

  /** Each accepted label marks its position. */
  lemma MarkedAt(labels: seq<string>, size: nat, j: nat)
    requires LabelsAccepted(labels, size) && j < |labels|
    ensures Position(ParseInt(labels[j]).value, size) in Marked(labels, size)
  {
  }

  lemma MarkedKept(labels: seq<string>, size: nat)
    requires labels != [] && LabelsAccepted(labels, size) && LabelsAccepted(labels[..|labels| - 1], size)
    ensures Marked(labels[..|labels| - 1], size) + {Position(ParseInt(labels[|labels| - 1]).value, size)}
            <= Marked(labels, size)
  {
    var front := labels[..|labels| - 1];
    forall p | p in Marked(front, size) ensures p in Marked(labels, size) {
      var j :| 0 <= j < |front| && p == Position(ParseInt(front[j]).value, size);
      assert front[j] == labels[j];
    }
    var last := |labels| - 1;
    assert Position(ParseInt(labels[last]).value, size) in Marked(labels, size);
  }

  /** The dense labels succeed exactly when every label is accepted; otherwise the first
      rejected label's fault is raised. */
  lemma {:induction false} DenseOfAccepts(labels: seq<string>, size: nat)
    ensures DenseOf(labels, size).Ok? <==> LabelsAccepted(labels, size)
    ensures DenseOf(labels, size).Raised? ==> Some(DenseOf(labels, size).fault) == FirstRejected(labels, size)
    ensures DenseOf(labels, size).Ok? ==> FirstRejected(labels, size) == None
    decreases |labels|
  {
    if labels != [] {
      DenseOfAccepts(labels[..|labels| - 1], size);
      AcceptedSplit(labels, size);
    }
  }

  /** Accepted labels give '1' at exactly the marked positions and '0' elsewhere. */
  lemma {:induction false} DenseOfMarks(labels: seq<string>, size: nat)
    requires LabelsAccepted(labels, size)
    ensures DenseOf(labels, size).Ok?
    ensures forall p :: 0 <= p < size ==>
              DenseOf(labels, size).value[p] == if p in Marked(labels, size) then "1" else "0"
    decreases |labels|
  {
    DenseOfAccepts(labels, size);
    if labels != [] {
      MarkedSplit(labels, size);
      DenseOfMarks(labels[..|labels| - 1], size);
    }
  }

  /** Listing a label that is already listed changes nothing. */
  lemma RepeatedLabel(labels: seq<string>, size: nat, j: nat)
    requires j < |labels| && DenseOf(labels, size).Ok?
    ensures DenseOf(labels + [labels[j]], size) == DenseOf(labels, size)
  {
    var more := labels + [labels[j]];
    assert more[..|more| - 1] == labels;
    DenseOfAccepts(labels, size);
    DenseOfMarks(labels, size);
    var dense := DenseOf(labels, size).value;
    var i := ParseInt(labels[j]).value;
    assert Position(i, size) in Marked(labels, size);
    assert dense[Position(i, size) := "1"] == dense;
  }

  /** The loop of the script that builds the dense label list in place. */
  method DenseLabels(labels: seq<string>, numLabels: int) returns (r: Outcome<seq<string>>)
    ensures r == DenseOf(labels, LabelCount(numLabels))
  {
    var size := LabelCount(numLabels);
    var dense := new string[size](_ => "0");
    assert dense[..] == seq(size, _ => "0");
    for j := 0 to |labels|
      invariant DenseOf(labels[..j], size) == Ok(dense[..])
    {
      var token := labels[j];
      var parsed := ParseInt(token);
      if parsed.None? {
        RejectedAt(labels, size, j, dense[..]);
        return Raised(InvalidLiteral(token));
      }
      var i := parsed.value;
      if !(-size <= i < size) {
        RejectedAt(labels, size, j, dense[..]);
        return Raised(IndexOutOfRange(i));
      }
      var p := if i < 0 then i + size else i;
      ghost var before := dense[..];
      dense[p] := "1";
      assert dense[..] == before[p := "1"];
      DenseOfStep(labels, size, j, before);
    }
    assert labels[..|labels|] == labels;
    r := Ok(dense[..]);
  }

  /** One more accepted label sets its position of the dense list of the labels before it. */
  lemma DenseOfStep(labels: seq<string>, size: nat, j: nat, before: seq<string>)
    requires j < |labels| && DenseOf(labels[..j], size) == Ok(before)
    requires Accepted(labels[j], size)
    ensures DenseOf(labels[..j + 1], size) == Ok(before[Position(ParseInt(labels[j]).value, size) := "1"])
  {
    assert labels[..j + 1][..j] == labels[..j];
  }

  /** A label that is not accepted after accepted ones raises its own fault for all
      the labels. */
  lemma RejectedAt(labels: seq<string>, size: nat, j: nat, before: seq<string>)
    requires j < |labels| && DenseOf(labels[..j], size) == Ok(before)
    requires !Accepted(labels[j], size)
    ensures DenseOf(labels, size)
            == Raised(if ParseInt(labels[j]).None? then InvalidLiteral(labels[j]) else IndexOutOfRange(ParseInt(labels[j]).value))
  {
    assert labels[..j + 1][..j] == labels[..j];
    RaisedPersists(labels, size, j + 1);
  }

  /** Once a prefix of the labels raises, so do all the labels, with the same fault. */
  lemma {:induction false} RaisedPersists(labels: seq<string>, size: nat, k: nat)
    requires k <= |labels| && DenseOf(labels[..k], size).Raised?
    ensures DenseOf(labels, size) == DenseOf(labels[..k], size)
    decreases |labels| - k
  {
    if k < |labels| {
      var longer := labels[..k + 1];
      assert longer[..k] == labels[..k];
      RaisedPersists(labels, size, k + 1);
    } else {
      assert labels[..k] == labels;
    }
  }

  // ---------------------------------------------------------------------------------
  // One line
  // ---------------------------------------------------------------------------------

  /** The label tokens of a line: tokens [labelsStart, labelsStart + labelsDim). */
  function LabelTokens(line: string, args: Arguments): seq<string> {
    var values := Split(line);
    Slice(values, args.labelsStart, args.labelsStart + args.labelsDim)
  }

  /** The feature tokens of a line: tokens [featuresStart, featuresStart + featuresDim). */
  function FeatureTokens(line: string, args: Arguments): seq<string> {
    var values := Split(line);
    Slice(values, args.featuresStart, args.featuresStart + args.featuresDim)
  }

  /** A tag, a space and the words joined by single spaces: "|labels " + " ".join(...). */
  function TaggedList(tag: string, words: seq<string>): string {
    tag + " " + Join(words)
  }

  /** The output line of an input line: the tagged dense labels, a tab, the tagged
      feature tokens and a newline, as the four writes of the loop put them; or the
      fault the labels raise, before anything of the line is written. */
  function ConvertLine(line: string, args: Arguments): (r: Outcome<string>)
    ensures r.Raised? <==> DenseOf(LabelTokens(line, args), LabelCount(args.numLabels)).Raised?
  {
    match DenseOf(LabelTokens(line, args), LabelCount(args.numLabels))
    case Raised(f) => Raised(f)
    case Ok(dense) => Ok(TaggedList(LabelsTag, dense) + "\t" + TaggedList(FeaturesTag, FeatureTokens(line, args)) + "\n")
  }

  /** An output line is one line: it ends with the only newline in it. */
  lemma ConvertLineIsOneLine(line: string, args: Arguments)
    requires ConvertLine(line, args).Ok?
    ensures var out := ConvertLine(line, args).value;
            |out| > 0 && out[|out| - 1] == '\n' && '\n' !in out[..|out| - 1]
  {
    var out := ConvertLine(line, args).value;
    var dense := DenseOf(LabelTokens(line, args), LabelCount(args.numLabels)).value;
    var features := FeatureTokens(line, args);
    DenseLabelsAreWords(LabelTokens(line, args), LabelCount(args.numLabels));
    TaggedListSingleLine(LabelsTag, dense);
    TaggedListSingleLine(FeaturesTag, features);
    var body := TaggedList(LabelsTag, dense) + "\t" + TaggedList(FeaturesTag, features);
    assert out == body + "\n";
    assert out[..|out| - 1] == body;
  }

  /** A tagged list holds no newline. */
  lemma TaggedListSingleLine(tag: string, words: seq<string>)
    requires '\n' !in tag
    requires forall k :: 0 <= k < |words| ==> IsWord(words[k])
    ensures '\n' !in TaggedList(tag, words)
  {
    JoinWordsSingleLine(words);
  }

  /** Joined tokens hold no whitespace but the spaces between them. */
  lemma {:induction false} JoinWordsSingleLine(words: seq<string>)
    requires forall k :: 0 <= k < |words| ==> IsWord(words[k])
    ensures '\n' !in Join(words)
    decreases |words|
  {
    if |words| == 1 {
      assert IsSpace('\n');
      assert IsWord(words[0]);
    } else if |words| > 1 {
      JoinWordsSingleLine(words[1..]);
      assert IsWord(words[0]);
      var j := Join(words);
      assert j == words[0] + " " + Join(words[1..]);
    }
  }

  /** Dense labels are the tokens "0" and "1". */
  lemma DenseLabelsAreWords(labels: seq<string>, size: nat)
    requires DenseOf(labels, size).Ok?
    ensures forall k :: 0 <= k < size ==> DenseOf(labels, size).value[k] in {"0", "1"}
    ensures forall k :: 0 <= k < size ==> IsWord(DenseOf(labels, size).value[k])
  {
    DenseOfAccepts(labels, size);
    DenseOfMarks(labels, size);
  }

  /** Splitting an output line gives back its parts: the labels tag, the dense labels,
      the features tag and the feature tokens, in order. */
  lemma ConvertLineTokens(line: string, args: Arguments)
    requires ConvertLine(line, args).Ok?
    ensures var dense := DenseOf(LabelTokens(line, args), LabelCount(args.numLabels)).value;
            Split(ConvertLine(line, args).value) == [LabelsTag] + dense + [FeaturesTag] + FeatureTokens(line, args)
  {
    DenseLabelsAreWords(LabelTokens(line, args), LabelCount(args.numLabels));
    var dense := DenseOf(LabelTokens(line, args), LabelCount(args.numLabels)).value;
    SplitOutputLine(dense, FeatureTokens(line, args));
  }

  /** The tagged labels, a tab, the tagged features and a newline split into the two
      tags and their words. */
  lemma SplitOutputLine(dense: seq<string>, features: seq<string>)
    requires forall k :: 0 <= k < |dense| ==> IsWord(dense[k])
    requires forall k :: 0 <= k < |features| ==> IsWord(features[k])
    ensures Split(TaggedList(LabelsTag, dense) + "\t" + TaggedList(FeaturesTag, features) + "\n")
            == [LabelsTag] + dense + [FeaturesTag] + features
  {
    var labelsPart := TaggedList(LabelsTag, dense);
    var featuresPart := TaggedList(FeaturesTag, features);
    SplitLine(labelsPart, featuresPart);
    SplitTaggedList(LabelsTag, dense, '\t', featuresPart + "\n");
    SplitTaggedList(FeaturesTag, features, '\n', []);
    Regroup([LabelsTag], dense, [FeaturesTag], features);
  }

  /** The output line regrouped around its tab, and its tail around its newline. */
  lemma SplitLine(labelsPart: string, featuresPart: string)
    ensures labelsPart + "\t" + featuresPart + "\n" == labelsPart + ['\t'] + (featuresPart + "\n")
    ensures featuresPart + "\n" == featuresPart + ['\n'] + []
  {
    Regroup(labelsPart, "\t", featuresPart, "\n");
  }

  /** A tagged list followed by whitespace and the rest splits into the tag, the words
      and the rest's tokens. */
  lemma SplitTaggedList(tag: string, words: seq<string>, c: char, rest: string)
    requires IsWord(tag) && IsSpace(c)
    requires forall k :: 0 <= k < |words| ==> IsWord(words[k])
    ensures Split(TaggedList(tag, words) + [c] + rest) == [tag] + words + Split(rest)
  {
    SplitJoin(words);
    SplitTagged(tag, Join(words), c, rest);
  }

  /** A tag, a space, a text, a whitespace character and the rest split into the tag,
      the text's tokens and the rest's tokens. */
  lemma SplitTagged(tag: string, text: string, c: char, rest: string)
    requires IsWord(tag) && IsSpace(c)
    ensures Split(tag + [' '] + text + [c] + rest) == [tag] + Split(text) + Split(rest)
  {
    var tail := text + [c] + rest;
    SplitAtSpace(text, c, rest);
    SplitAtSpace(tag, ' ', tail);
    SplitWord(tag);
    Regroup(tag + [' '], text, [c], rest);
    Regroup([tag], Split(text), Split(rest), []);
  }

  /** Concatenation regrouped to the right. */
  lemma Regroup<T>(a: seq<T>, b: seq<T>, c: seq<T>, d: seq<T>)
    ensures a + b + c + d == a + (b + c + d)
    ensures a + b + c == a + (b + c)
  {
  }

  // ---------------------------------------------------------------------------------
  // The whole file
  // ---------------------------------------------------------------------------------

  /** The loop over the input lines: one output line per input line, in order, until a
      line raises; the lines before it are written and the fault ends the run. */
  method ConvertLines(lines: seq<string>, args: Arguments) returns (written: seq<string>, fault: Option<Fault>)
    ensures |written| <= |lines|
    ensures forall i :: 0 <= i < |written| ==> ConvertLine(lines[i], args) == Ok(written[i])
    ensures fault.None? <==> |written| == |lines|
    ensures fault.Some? ==> ConvertLine(lines[|written|], args) == Raised(fault.value)
  {
    written := [];
    for i := 0 to |lines|
      invariant |written| == i
      invariant forall k :: 0 <= k < i ==> ConvertLine(lines[k], args) == Ok(written[k])
    {
      var values := Split(lines[i]);
      var labels := Slice(values, args.labelsStart, args.labelsStart + args.labelsDim);
      var dense := DenseLabels(labels, args.numLabels);
      if dense.Raised? {
        return written, Some(dense.fault);
      }
      var features := Slice(values, args.featuresStart, args.featuresStart + args.featuresDim);
      var out := TaggedList(LabelsTag, dense.value) + "\t" + TaggedList(FeaturesTag, features) + "\n";
      written := written + [out];
    }
    fault := None;
  }
}
