/** The pure helpers of the client page: classifying an uploaded file by its name,
    the upload list and its removal by index, the two download formats, and the
    case-count field's fallback. */
module Page {
  import opened Wrappers
  import opened Text
  import opened Generate

  datatype FileType = Generator | Standard | Input | Output

  /** An uploaded file; `size` is the byte size the browser reports. */
  datatype TestFile = TestFile(name: string, content: string, size: nat, fileType: FileType)

  /** The upload ternary: a name containing "gen" is a generator (even if it also
      contains "std"), otherwise a name containing "std" is a standard, otherwise it
      is an input. No upload is ever classified as an output. */
  function ClassifyFile(name: string): (t: FileType)
    ensures t == Generator <==> IsSubstring("gen", name)
    ensures t == Standard <==> !IsSubstring("gen", name) && IsSubstring("std", name)
    ensures t == Input <==> !IsSubstring("gen", name) && !IsSubstring("std", name)
    ensures t != Output
  {
    ContainsIff(name, "gen");
    ContainsIff(name, "std");
    if Contains(name, "gen") then Generator
    else if Contains(name, "std") then Standard
    else Input
  }

  /** One finished read: the new file goes at the end of the list, classified by
      its name; the files already there are kept as they were. */
  function Upload(files: seq<TestFile>, name: string, content: string, size: nat): (r: seq<TestFile>)
    ensures |r| == |files| + 1
    ensures r[..|files|] == files
    ensures r[|files|].name == name && r[|files|].content == content && r[|files|].size == size
    ensures r[|files|].fileType == ClassifyFile(name)
  {
    files + [TestFile(name, content, size, ClassifyFile(name))]
  }

  /** `files.filter((_, i) => i !== index)`, one position at a time. */
  function RemoveFile<T>(files: seq<T>, index: int): (r: seq<T>)
    ensures 0 <= index < |files| ==> r == files[..index] + files[index + 1..]
    ensures !(0 <= index < |files|) ==> r == files
    decreases |files|
  {
    if files == [] then []
    else
      var rest := RemoveFile(files[1..], index - 1);
      if index == 0 then
        assert files[1..] == files[..0] + files[1..];
        rest
      else
        assert 0 < index < |files| ==> [files[0]] + files[1..][..index - 1] == files[..index];
        assert [files[0]] + files[1..] == files;
        [files[0]] + rest
  }

  /** Removal by index keeps the other files in order: each survivor is the file at
      the same position before the removed one and one further on after it. */
  lemma RemoveFileShifts<T>(files: seq<T>, index: int)
    requires 0 <= index < |files|
    ensures |RemoveFile(files, index)| == |files| - 1
    ensures forall j :: 0 <= j < |files| - 1 ==>
      RemoveFile(files, index)[j] == if j < index then files[j] else files[j + 1]
  {
  }

  /** Removing the file just uploaded gives the list back. */
  lemma RemoveUploaded(files: seq<TestFile>, name: string, content: string, size: nat)
    ensures RemoveFile(Upload(files, name, content, size), |files|) == files
  {
    var r := Upload(files, name, content, size);
    assert r == files + [r[|files|]];
    RemoveLast(files, r[|files|]);
  }

  lemma RemoveLast<T>(files: seq<T>, f: T)
    ensures RemoveFile(files + [f], |files|) == files
  {
    assert (files + [f])[..|files|] == files;
    assert (files + [f])[|files| + 1..] == [];
    assert files + [] == files;
  }

  /** The combined-download block of the case at list position `position` (counted
      from 1). */
  function CaseBlock(tc: TestCase, position: nat): string {
    "=== 测试点 " + NatToString(position) + " ===\n输入:\n" + tc.input + "\n输出:\n" + tc.output + "\n"
  }

  /** `testCases.map((tc, i) => block(tc, i + 1))`. */
  function Blocks(cases: seq<TestCase>): (r: seq<string>)
    ensures |r| == |cases|
    ensures forall i :: 0 <= i < |cases| ==> r[i] == CaseBlock(cases[i], i + 1)
  {
    seq(|cases|, i requires 0 <= i < |cases| => CaseBlock(cases[i], i + 1))
  }

  /** The text of the combined download: the blocks joined by line breaks. */
  function CombinedText(cases: seq<TestCase>): string {
    Join(Blocks(cases), "\n")
  }

  /** No cases, an empty download. */
  lemma CombinedTextEmpty()
    ensures CombinedText([]) == ""
  {
  }

  /** A single case is its own block, numbered 1. */
  lemma CombinedTextSingle(tc: TestCase)
    ensures CombinedText([tc]) == CaseBlock(tc, 1)
  {
    assert Blocks([tc]) == [CaseBlock(tc, 1)];
  }

  /** One more case adds a line break and its block, numbered by its position. */
  lemma CombinedTextAppend(cases: seq<TestCase>, tc: TestCase)
    requires cases != []
    ensures CombinedText(cases + [tc]) == CombinedText(cases) + "\n" + CaseBlock(tc, |cases| + 1)
  {
    assert Blocks(cases + [tc]) == Blocks(cases) + [CaseBlock(tc, |cases| + 1)];
    JoinAppend(Blocks(cases), CaseBlock(tc, |cases| + 1), "\n");
  }

  /** The numbering comes from list position only: cases that agree on their inputs
      and outputs give the same download, whatever their `index` fields say. */
  lemma CombinedTextIgnoresIndex(cases: seq<TestCase>, others: seq<TestCase>)
    requires |cases| == |others|
    requires forall i :: 0 <= i < |cases| ==>
      cases[i].input == others[i].input && cases[i].output == others[i].output
    ensures CombinedText(cases) == CombinedText(others)
  {
    assert Blocks(cases) == Blocks(others);
  }

  /** The per-case downloads, in the order they are started: for each case in turn,
      its input file and then its output file, named by its position. */
  function SeparateFiles(cases: seq<TestCase>): seq<(string, string)>
    decreases |cases|
  {
    if cases == [] then []
    else
      var n := |cases| - 1;
      SeparateFiles(cases[..n]) + [(NameOf(n, 0), cases[n].input), (NameOf(n, 1), cases[n].output)]
  }

  /** The name of the download for the case at position i: `{i+1}.in` for its
      input (p = 0), `{i+1}.out` for its output (p = 1). */
  function NameOf(i: nat, p: nat): string {
    NatToString(i + 1) + (if p == 0 then ".in" else ".out")
  }

  /** Two downloads per case; the case at position i gives downloads 2i and 2i + 1:
      `{i+1}.in` holding its input, then `{i+1}.out` holding its output. */
  lemma {:induction false} SeparateFilesLayout(cases: seq<TestCase>)
    ensures |SeparateFiles(cases)| == 2 * |cases|
    ensures forall i :: 0 <= i < |cases| ==>
      && SeparateFiles(cases)[2 * i] == (NatToString(i + 1) + ".in", cases[i].input)
      && SeparateFiles(cases)[2 * i + 1] == (NatToString(i + 1) + ".out", cases[i].output)
    decreases |cases|
  {
    if cases != [] {
      var n := |cases| - 1;
      SeparateFilesLayout(cases[..n]);
      var r, prev := SeparateFiles(cases), SeparateFiles(cases[..n]);
      forall i | 0 <= i < n
        ensures r[2 * i] == prev[2 * i] && r[2 * i + 1] == prev[2 * i + 1]
      {
      }
    }
  }

  lemma SuffixedNamesInjective(a: nat, b: nat, x: string, y: string)
    requires x == ".in" || x == ".out"
    requires y == ".in" || y == ".out"
    requires NatToString(a) + x == NatToString(b) + y
    ensures a == b && x == y
  {
    var l := NatToString(a) + x;
    assert l[|l| - 1] == x[|x| - 1];
    assert l[|l| - 1] == (NatToString(b) + y)[|l| - 1] == y[|y| - 1];
    assert NatToString(a) == l[..|l| - |x|] == NatToString(b);
    NatToStringInjective(a, b);
  }

  lemma NameAt(cases: seq<TestCase>, a: nat, p: nat)
    requires a < |cases| && p < 2
    ensures 2 * a + p < |SeparateFiles(cases)|
    ensures SeparateFiles(cases)[2 * a + p].0 == NameOf(a, p)
  {
    SeparateFilesLayout(cases);
    var r := SeparateFiles(cases);
    if p == 0 {
      assert r[2 * a] == (NatToString(a + 1) + ".in", cases[a].input);
    } else {
      assert r[2 * a + 1] == (NatToString(a + 1) + ".out", cases[a].output);
    }
  }

  lemma NamesDiffer(a: nat, p: nat, b: nat, q: nat)
    requires p < 2 && q < 2 && (a != b || p != q)
    ensures NameOf(a, p) != NameOf(b, q)
  {
    if NameOf(a, p) == NameOf(b, q) {
      SuffixedNamesInjective(a + 1, b + 1, if p == 0 then ".in" else ".out", if q == 0 then ".in" else ".out");
    }
  }

  /** No two per-case downloads share a file name. */
  lemma SeparateFileNamesDistinct(cases: seq<TestCase>)
    ensures var r := SeparateFiles(cases);
      forall j, k :: 0 <= j < k < |r| ==> r[j].0 != r[k].0
  {
    var r := SeparateFiles(cases);
    SeparateFilesLayout(cases);
    forall j, k | 0 <= j < k < |r|
      ensures r[j].0 != r[k].0
    {
      var a, p := j / 2, j % 2;
      var b, q := k / 2, k % 2;
      assert j == 2 * a + p && k == 2 * b + q;
      NameAt(cases, a, p);
      NameAt(cases, b, q);
      NamesDiffer(a, p, b, q);
    }
  }

  /** Length of the longest prefix of `s` made of digits of the radix. */
  function DigitPrefix(s: string, radix: nat): (d: nat)
    ensures d <= |s|
    ensures forall i :: 0 <= i < d ==> DigitValue(s[i]) < radix
    ensures d == |s| || DigitValue(s[d]) >= radix
    decreases |s|
  {
    if s != [] && DigitValue(s[0]) < radix then 1 + DigitPrefix(s[1..], radix) else 0
  }

  /** The longest run of digits at the front of `v`, read in the radix; None if
      there is none. */
  function ParseDigits(v: string, radix: nat): Option<nat> {
    var d := DigitPrefix(v, radix);
    if d == 0 then None else Some(DigitsValue(v[..d], radix))
  }

  /** An unsigned number: "0x" or "0X" selects radix 16, anything else radix 10. */
  function ParseMagnitude(u: string): Option<nat> {
    if |u| >= 2 && u[0] == '0' && (u[1] == 'x' || u[1] == 'X') then ParseDigits(u[2..], 16)
    else ParseDigits(u, 10)
  }

  /** An optional sign, then an unsigned number. */
  function ParseSigned(t: string): Option<int> {
    if t != [] && t[0] == '-' then
      match ParseMagnitude(t[1..])
      case None => None
      case Some(m) => Some(-(m as int))
    else if t != [] && t[0] == '+' then
      match ParseMagnitude(t[1..])
      case None => None
      case Some(m) => Some(m)
    else
      match ParseMagnitude(t)
      case None => None
      case Some(m) => Some(m)
  }

  /** `parseInt(s)` with no radix: leading white space is skipped, then an optional
      sign, then a "0x" or "0X" prefix selects radix 16 (radix 10 otherwise); the
      longest run of digits is read and the rest ignored. No digits is NaN (None). */
  function ParseInt(s: string): Option<int> {
    ParseSigned(TrimStart(s))
  }

  /** Reading digits stops exactly at the first character that is not one. */
  lemma {:induction false} DigitPrefixOfDigits(w: string, rest: string, radix: nat)
    requires forall i :: 0 <= i < |w| ==> DigitValue(w[i]) < radix
    requires rest == [] || DigitValue(rest[0]) >= radix
    ensures DigitPrefix(w + rest, radix) == |w|
    decreases |w|
  {
    if w != [] {
      assert (w + rest)[1..] == w[1..] + rest;
      DigitPrefixOfDigits(w[1..], rest, radix);
    } else {
      assert w + rest == rest;
    }
  }

  /** A decimal rendering followed by a non-digit reads back as its number. */
  lemma ParseDecimalMagnitude(n: nat, rest: string)
    requires rest == [] || !IsDigit(rest[0])
    requires n == 0 ==> rest == [] || (rest[0] != 'x' && rest[0] != 'X')
    ensures ParseMagnitude(NatToString(n) + rest) == Some(n)
  {
    var w := NatToString(n);
    var u := w + rest;
    assert u[0] == w[0];
    if n >= 1 {
      NoLeadingZero(n);
    } else if rest != [] {
      assert u[1] == rest[0];
    }
    DigitPrefixOfDigits(w, rest, 10);
    assert u[..|w|] == w;
    DecimalValue(n);
  }

  /** The decimal rendering of a number, followed by anything that does not start
      with a digit ("7", "7.5", "7e1"), parses as that number; with a minus sign in
      front, as its negation. After a lone 0 an "x" would start a hexadecimal number
      instead. */
  lemma ParseIntDecimal(n: nat, rest: string)
    requires rest == [] || !IsDigit(rest[0])
    requires n == 0 ==> rest == [] || (rest[0] != 'x' && rest[0] != 'X')
    ensures ParseInt(NatToString(n) + rest) == Some(n)
    ensures ParseInt("-" + NatToString(n) + rest) == Some(-(n as int))
  {
    var u := NatToString(n) + rest;
    assert u[0] == NatToString(n)[0];
    UnpaddedStart(u);
    var s := "-" + NatToString(n) + rest;
    assert s == "-" + u && s[1..] == u;
    UnpaddedStart(s);
    ParseDecimalMagnitude(n, rest);
  }

  /** `parseInt(value) || 1`: NaN and zero fall back to 1, any other number is kept. */
  function CaseCountField(value: string): (n: int)
    ensures n != 0
    ensures ParseInt(value).Some? && ParseInt(value).value != 0 ==> n == ParseInt(value).value
    ensures ParseInt(value).None? || ParseInt(value) == Some(0) ==> n == 1
  {
    match ParseInt(value)
    case None => 1
    case Some(v) => if v == 0 then 1 else v
  }

  /** The field is not clamped to the input's bounds of 1 and 20: a typed 25 stays 25
      and a typed -3 stays -3. */
  lemma CaseCountFieldUnclamped(n: nat)
    requires n >= 1
    ensures CaseCountField(NatToString(n)) == n
    ensures CaseCountField("-" + NatToString(n)) == -(n as int)
  {
    ParseIntDecimal(n, "");
    assert NatToString(n) + "" == NatToString(n);
    assert "-" + NatToString(n) + "" == "-" + NatToString(n);
  }

  /** An empty field and a typed 0 both become 1. */
  lemma CaseCountFieldFallback()
    ensures CaseCountField("") == 1
    ensures CaseCountField("0") == 1
  {
    assert ParseInt("") == None;
    ParseIntDecimal(0, "");
    assert NatToString(0) + "" == "0";
  }
}
