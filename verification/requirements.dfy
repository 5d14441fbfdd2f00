/** `parse_requirements` in setup.py: the install requirements are the lines of the requirements
    file, stripped, without blank lines and without `#` comment lines. The lines are given as a
    sequence; opening and reading the file is not modelled. */
module Requirements {
  import opened Text
  import opened Seqs

  /** A stripped line that survives the filter: non-empty and not a comment. */
  predicate IsRequirement(line: string) {
    |line| > 0 && !IsPrefix("#", line)
  }

  /** The generator `(line.strip() for line in f)`. */
  function StripAll(lines: seq<string>): (r: seq<string>)
    ensures |r| == |lines|
    ensures forall i :: 0 <= i < |r| ==> r[i] == Strip(lines[i])
  {
    seq(|lines|, i requires 0 <= i < |lines| => Strip(lines[i]))
  }

  function ParseRequirements(lines: seq<string>): (r: seq<string>)
    ensures |r| <= |lines|
    ensures forall i :: 0 <= i < |r| ==> IsRequirement(r[i]) && Strip(r[i]) == r[i]
  {
    var stripped := StripAll(lines);
    var r := Filter(stripped, IsRequirement);
    forall x | x in r
      ensures IsRequirement(x) && Strip(x) == x
    {
      var i :| 0 <= i < |stripped| && stripped[i] == x;
      StripIdempotent(lines[i]);
    }
    r
  }

  /** A line is in the result exactly when it is the stripped form of some input line and is
      neither blank nor a comment. */
  lemma ParseRequirementsMembers(lines: seq<string>, x: string)
    ensures x in ParseRequirements(lines)
        <==> IsRequirement(x) && exists i :: 0 <= i < |lines| && Strip(lines[i]) == x
  {
    var stripped := StripAll(lines);
    if IsRequirement(x) && exists i :: 0 <= i < |lines| && Strip(lines[i]) == x {
      var i :| 0 <= i < |lines| && Strip(lines[i]) == x;
      assert stripped[i] == x;
    }
    if x in ParseRequirements(lines) {
      assert x in stripped;
      var i :| 0 <= i < |stripped| && stripped[i] == x;
      assert Strip(lines[i]) == x;
    }
  }

  /** The result is, in order, each non-empty non-comment stripped line: reading the file in two
      parts and concatenating gives the same list. */
  lemma ParseRequirementsAppend(a: seq<string>, b: seq<string>)
    ensures ParseRequirements(a + b) == ParseRequirements(a) + ParseRequirements(b)
  {
    assert StripAll(a + b) == StripAll(a) + StripAll(b);
    FilterAppend(StripAll(a), StripAll(b), IsRequirement);
  }

  /** One line on its own is kept, stripped, exactly when it is a requirement once stripped. */
  lemma ParseRequirementsSingle(line: string)
    ensures ParseRequirements([line])
         == if IsRequirement(Strip(line)) then [Strip(line)] else []
  {
    assert StripAll([line]) == [Strip(line)];
    assert Filter([Strip(line)], IsRequirement)
        == (if IsRequirement(Strip(line)) then [Strip(line)] else []) + Filter([], IsRequirement);
  }

  /** Parsing the parsed list again changes nothing. */
  lemma ParseRequirementsIdempotent(lines: seq<string>)
    ensures ParseRequirements(ParseRequirements(lines)) == ParseRequirements(lines)
  {
    var r := ParseRequirements(lines);
    assert StripAll(r) == r;
    var stripped := StripAll(lines);
    FilterIdempotent(stripped, IsRequirement);
  }

  /** A comment stays a comment when it is indented: the whitespace goes first. */
  lemma IndentedCommentDropped(indent: string, rest: string)
    requires forall i :: 0 <= i < |indent| ==> IsSpace(indent[i])
    ensures ParseRequirements([indent + "#" + rest]) == []
  {
    StripSkipsIndent(indent, '#', rest);
    assert indent + "#" + rest == indent + ['#'] + rest;
    var s := Strip(indent + "#" + rest);
    assert s[..1] == "#";
    ParseRequirementsSingle(indent + "#" + rest);
  }

  /** Blank and whitespace-only lines never survive. */
  lemma BlankLineDropped(line: string)
    requires forall i :: 0 <= i < |line| ==> IsSpace(line[i])
    ensures ParseRequirements([line]) == []
  {
    ParseRequirementsSingle(line);
  }
}
