/**
 Markdown documents with YAML front matter: two scanners that must stop at one line, and
 the assembly of new documents that both must read back.
 */
module FrontMatter {
  import opened Wrappers

  datatype Error =
    | MissingOpeningDelimiter
    | MissingClosingDelimiter
    | FrontMatterTooLarge(maximum: nat, actual: nat)

  /* ---------------- lines ---------------- */

  // Where the line that starts at `i` ends, with its line feed.
  function LineEnd(s: string, i: nat): (end: nat)
    requires i <= |s|
    ensures i <= end <= |s| && (i < |s| ==> i < end)
    decreases |s| - i
  {
    if i == |s| then i else if s[i] == '\n' then i + 1 else LineEnd(s, i + 1)
  }

  // The line without a line feed and then without a carriage return is three dashes.
  predicate IsDelimiter(s: string, start: nat, end: nat)
    requires start <= end <= |s|
  {
    var unfed := if start < end && s[end - 1] == '\n' then end - 1 else end;
    var content := if start < unfed && s[unfed - 1] == '\r' then unfed - 1 else unfed;
    content == start + 3 && s[start] == '-' && s[start + 1] == '-' && s[start + 2] == '-'
  }

  // What follows the opening delimiter.
  function Remainder(markdown: string): Option<string> {
    if |markdown| >= 4 && markdown[..4] == "---\n" then Some(markdown[4..])
    else if |markdown| >= 5 && markdown[..5] == "---\r\n" then Some(markdown[5..])
    else None
  }

  // Start and end of the first delimiter line among the lines from `i` on.
  function Closing(s: string, i: nat): (r: Option<(nat, nat)>)
    requires i <= |s|
    ensures r.Some? ==> i <= r.value.0 < r.value.1 <= |s|
    decreases |s| - i
  {
    if i == |s| then None
    else if IsDelimiter(s, i, LineEnd(s, i)) then Some((i, LineEnd(s, i)))
    else Closing(s, LineEnd(s, i))
  }

  predicate LineStart(s: string, i: nat) {
    i < |s| && (i == 0 || s[i - 1] == '\n')
  }

  // A delimiter line begins at `i`.
  predicate DelimiterLine(s: string, i: nat) {
    LineStart(s, i) && IsDelimiter(s, i, LineEnd(s, i))
  }

  lemma {:induction false} LineEndIsFirst(s: string, i: nat)
    requires i <= |s|
    ensures LineEnd(s, i) < |s| ==> s[LineEnd(s, i) - 1] == '\n'
    ensures forall j :: i <= j < LineEnd(s, i) - 1 ==> s[j] != '\n'
    decreases |s| - i
  {
    if i < |s| && s[i] != '\n' {
      LineEndIsFirst(s, i + 1);
    }
  }

  // The scan finds the first delimiter line there is, and only if there is one.
  lemma {:induction false} ClosingExact(s: string, i: nat)
    requires i == |s| || LineStart(s, i)
    ensures var r := Closing(s, i);
            && (r.None? ==> forall j :: i <= j < |s| ==> !DelimiterLine(s, j))
            && (r.Some? ==>
                  && DelimiterLine(s, r.value.0) && r.value.1 == LineEnd(s, r.value.0)
                  && forall j :: i <= j < r.value.0 ==> !DelimiterLine(s, j))
    decreases |s| - i
  {
    if i < |s| && !IsDelimiter(s, i, LineEnd(s, i)) {
      LineEndIsFirst(s, i);
      ClosingExact(s, LineEnd(s, i));
      forall j | i <= j < LineEnd(s, i) ensures !DelimiterLine(s, j) {
      }
    }
  }

  // A delimiter line is three dashes and nothing, a line feed, a carriage return and a line
  // feed, or at the end of the text a carriage return.
  lemma DelimiterText(s: string, i: nat)
    requires i < |s|
    ensures IsDelimiter(s, i, LineEnd(s, i)) <==> s[i..LineEnd(s, i)] in ["---", "---\n", "---\r\n", "---\r"]
  {
    LineText(s[i..LineEnd(s, i)]);
  }

  lemma LineText(line: string)
    ensures IsDelimiter(line, 0, |line|) <==> line in ["---", "---\n", "---\r\n", "---\r"]
  {
    if IsDelimiter(line, 0, |line|) {
      if |line| == 3 {
        assert line == "---";
      } else if |line| == 4 && line[3] == '\n' {
        assert line == "---\n";
      } else if |line| == 4 {
        assert line == "---\r";
      } else {
        assert line == "---\r\n";
      }
    }
  }

  /* ---------------- the two scanners ---------------- */

  // The body after the closing delimiter.
  method MarkdownBody(markdown: string) returns (r: Result<string, Error>)
    ensures r == match Remainder(markdown)
                 case None => Failure(MissingOpeningDelimiter)
                 case Some(remainder) =>
                   match Closing(remainder, 0)
                   case None => Failure(MissingClosingDelimiter)
                   case Some(place) => Success(remainder[place.1..])
  {
    var afterOpening := Remainder(markdown);
    if afterOpening.None? {
      return Failure(MissingOpeningDelimiter);
    }
    var remainder, bodyOffset := afterOpening.value, 0;
    while bodyOffset < |remainder|
      invariant bodyOffset <= |remainder|
      invariant Closing(remainder, 0) == Closing(remainder, bodyOffset)
    {
      var start := bodyOffset;
      bodyOffset := LineEnd(remainder, start);
      if IsDelimiter(remainder, start, bodyOffset) {
        return Success(remainder[bodyOffset..]);
      }
    }
    return Failure(MissingClosingDelimiter);
  }

  // The first line end after position `maximum`.
  predicate FirstEndBeyond(s: string, maximum: nat, end: nat) {
    && maximum < end <= |s|
    && (end < |s| ==> s[end - 1] == '\n')
    && forall j :: maximum <= j < end - 1 ==> s[j] != '\n'
  }

  // The front matter before the closing delimiter, if it is within the limit. A limit that is
  // passed before a delimiter is found decides, and is reported with the line that passed it.
  method ExtractFrontMatter(markdown: string, maximum: nat) returns (r: Result<string, Error>)
    ensures match Remainder(markdown)
            case None => r == Failure(MissingOpeningDelimiter)
            case Some(remainder) =>
              var closing := Closing(remainder, 0);
              && (r.Success? <==> closing.Some? && closing.value.0 <= maximum)
              && (r.Success? ==> r.value == remainder[..closing.value.0])
              && (r.Failure? ==>
                    if closing.None? && |remainder| <= maximum then r.error == MissingClosingDelimiter
                    else
                      && r.error.FrontMatterTooLarge? && r.error.maximum == maximum
                      && FirstEndBeyond(remainder, maximum, r.error.actual))
  {
    var afterOpening := Remainder(markdown);
    if afterOpening.None? {
      return Failure(MissingOpeningDelimiter);
    }
    var remainder, offset := afterOpening.value, 0;
    while offset < |remainder|
      invariant offset <= |remainder| && offset <= maximum
      invariant Closing(remainder, 0) == Closing(remainder, offset)
    {
      var start := offset;
      offset := LineEnd(remainder, start);
      if IsDelimiter(remainder, start, offset) {
        return Success(remainder[..start]);
      }
      if offset > maximum {
        LineEndIsFirst(remainder, start);
        return Failure(FrontMatterTooLarge(maximum, offset));
      }
    }
    return Failure(MissingClosingDelimiter);
  }

  // Both scanners on one text. When there is a body, the text is an opening line, some front
  // matter, one delimiter line and that body, and extraction gives the same front matter
  // exactly if it is within the limit.
  method SplitDocument(markdown: string, maximum: nat)
    returns (
      matter: Result<string, Error>, body: Result<string, Error>,
      ghost opening: string, ghost front: string, ghost closing: string)
    ensures body.Failure? ==> matter.Failure?
    ensures body.Success? ==>
              && markdown == opening + front + closing + body.value
              && (opening == "---\n" || opening == "---\r\n")
              && IsDelimiter(closing, 0, |closing|)
              && (if |front| <= maximum then matter == Success(front) else matter.Failure?)
    ensures body == Failure(MissingOpeningDelimiter) <==> !("---\n" <= markdown) && !("---\r\n" <= markdown)
  {
    matter := ExtractFrontMatter(markdown, maximum);
    body := MarkdownBody(markdown);
    opening, front, closing := "", "", "";
    OpeningLine(markdown);
    if body.Success? {
      opening, front, closing := Parts(markdown, Remainder(markdown).value);
    }
  }

  lemma Parts(markdown: string, s: string) returns (opening: string, front: string, closing: string)
    requires Remainder(markdown) == Some(s) && Closing(s, 0).Some?
    ensures var (start, end) := Closing(s, 0).value;
            front == s[..start] && markdown == opening + front + closing + s[end..]
    ensures (opening == "---\n" || opening == "---\r\n") && IsDelimiter(closing, 0, |closing|)
  {
    var (start, end) := Closing(s, 0).value;
    OpeningLine(markdown);
    ClosingLine(s, 0);
    opening, front, closing := markdown[..|markdown| - |s|], s[..start], s[start..end];
    FourParts(markdown, opening, s, start, end);
  }

  lemma OpeningLine(markdown: string)
    ensures Remainder(markdown).None? <==> !("---\n" <= markdown) && !("---\r\n" <= markdown)
    ensures Remainder(markdown).Some? ==>
              var rest := Remainder(markdown).value;
              && |rest| <= |markdown|
              && var opening := markdown[..|markdown| - |rest|];
                 markdown == opening + rest && (opening == "---\n" || opening == "---\r\n")
  {
  }

  lemma FourParts(markdown: string, opening: string, s: string, start: nat, end: nat)
    requires markdown == opening + s && start <= end <= |s|
    ensures markdown == opening + s[..start] + s[start..end] + s[end..]
  {
    assert s == s[..start] + s[start..end] + s[end..];
    Regroup(opening, s[..start], s[start..end], s[end..]);
  }

  lemma {:induction false} ClosingLine(s: string, i: nat)
    requires i <= |s| && Closing(s, i).Some?
    ensures var (start, end) := Closing(s, i).value;
            IsDelimiter(s, start, end) && IsDelimiter(s[start..end], 0, end - start)
    decreases |s| - i
  {
    if IsDelimiter(s, i, LineEnd(s, i)) {
    } else {
      ClosingLine(s, LineEnd(s, i));
    }
  }

  /* ---------------- created documents ---------------- */

  function Terminated(yaml: string): string {
    if yaml != "" && yaml[|yaml| - 1] == '\n' then yaml else yaml + "\n"
  }

  function Document(yaml: string, body: string): string {
    "---\n" + Terminated(yaml) + "---\n\n" + body
  }

  // A missing line feed at the end of the YAML makes no difference.
  lemma DocumentText(text: string, body: string)
    ensures Document(text + "\n", body) == "---\n" + text + "\n---\n\n" + body
    ensures text == "" || text[|text| - 1] != '\n' ==> Document(text, body) == Document(text + "\n", body)
  {
    var fed := text + "\n";
    assert fed[|fed| - 1] == '\n' && Terminated(fed) == fed;
    assert "\n---\n\n" == "\n" + "---\n\n";
    assert "---\n" + fed + "---\n\n" == "---\n" + text + "\n---\n\n";
  }

  // `None`: the front matter exceeds the limit.
  method Prepare(yaml: string, body: string, maximum: nat) returns (markdown: Option<string>)
    ensures markdown.Some? <==> |Terminated(yaml)| <= maximum
    ensures markdown.Some? ==> markdown.value == Document(yaml, body)
  {
    var ends := yaml != "" && yaml[|yaml| - 1] == '\n';
    var frontMatterBytes := |yaml| + if ends then 0 else 1;
    if frontMatterBytes > maximum {
      return None;
    }
    var text := "---\n";
    text := text + yaml;
    if !ends {
      text := text + "\n";
      assert text == "---\n" + (yaml + "\n");
    }
    text := text + "---\n\n";
    text := text + body;
    return Some(text);
  }

  // Text after terminated lines does not change where those lines end.
  lemma {:induction false} LineEndOf(s: string, rest: string, i: nat)
    requires i < |s| && s[|s| - 1] == '\n'
    ensures LineEnd(s + rest, i) == LineEnd(s, i)
    decreases |s| - i
  {
    if s[i] == '\n' {
    } else {
      LineEndOf(s, rest, i + 1);
    }
  }

  // Terminated text ahead of a delimiter line: the scan stops in the text if it has a
  // delimiter line, and at the delimiter after it if not.
  lemma {:induction false} ClosingAfter(s: string, rest: string, i: nat)
    requires s != "" && s[|s| - 1] == '\n' && i <= |s|
    requires |rest| >= 4 && rest[0] == '-' && rest[1] == '-' && rest[2] == '-' && rest[3] == '\n'
    ensures Closing(s + rest, i) == if Closing(s, i).Some? then Closing(s, i) else Some((|s|, |s| + 4))
    decreases |s| - i
  {
    var all := s + rest;
    if i == |s| {
      assert all[i] == '-' && all[i + 1] == '-' && all[i + 2] == '-' && all[i + 3] == '\n';
      assert LineEnd(all, i + 3) == i + 4;
      assert LineEnd(all, i + 2) == i + 4;
      assert LineEnd(all, i + 1) == i + 4;
      assert LineEnd(all, i) == i + 4;
    } else {
      LineEndOf(s, rest, i);
      assert IsDelimiter(all, i, LineEnd(s, i)) <==> IsDelimiter(s, i, LineEnd(s, i));
      ClosingAfter(s, rest, LineEnd(s, i));
    }
  }

  lemma Opened(s: string)
    ensures Remainder("---\n" + s) == Some(s)
  {
    var document := "---\n" + s;
    assert document[..4] == "---\n" && document[4..] == s;
  }

  lemma AfterText(text: string, rest: string)
    requires |rest| >= 4
    ensures (text + rest)[..|text|] == text && (text + rest)[|text| + 4..] == rest[4..]
  {
  }

  lemma DelimiterCut(body: string)
    ensures ("---\n\n" + body)[4..] == "\n" + body
  {
  }

  // A created document reads back as its YAML and as a line feed and its body, for any body,
  // exactly if no line of the YAML is the delimiter.
  lemma CreatedReadsBack(yaml: string, body: string)
    ensures var remainder := Remainder(Document(yaml, body));
            && remainder.Some? && Closing(remainder.value, 0).Some?
            && var (start, end) := Closing(remainder.value, 0).value;
               (remainder.value[..start] == Terminated(yaml) && remainder.value[end..] == "\n" + body) <==>
               forall j :: 0 <= j < |Terminated(yaml)| ==> !DelimiterLine(Terminated(yaml), j)
  {
    var text, rest := Terminated(yaml), "---\n\n" + body;
    var document, remainder := Document(yaml, body), text + rest;
    Regroup("---\n", text, "---\n\n", body);
    Associative(text, "---\n\n", body);
    assert document == "---\n" + remainder;
    Opened(remainder);
    ClosingAfter(text, rest, 0);
    ClosingExact(text, 0);
    var (start, end) := Closing(remainder, 0).value;
    if Closing(text, 0).None? {
      AfterText(text, rest);
      DelimiterCut(body);
    } else {
      assert DelimiterLine(text, start) && |remainder[..start]| < |text|;
    }
  }
}
