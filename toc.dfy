/** The table-of-contents reader: `re.findall(r'<doc:([^>]+)>', content)`,
    seen as a left-to-right, non-overlapping scan of the text. */
module Toc {
  import opened Outcomes
  import opened Text

  /** The literal that opens a document reference. */
  const Open: string := "<doc:"

  /** Index of the first `>` in `s`, if any. */
  function FindClose(s: string): (r: Option<nat>)
    ensures r.Some? ==> r.value < |s| && s[r.value] == '>'
    ensures r.Some? ==> forall j :: 0 <= j < r.value ==> s[j] != '>'
    ensures r.None? <==> '>' !in s
  {
    if s == [] then None
    else if s[0] == '>' then Some(0)
    else match FindClose(s[1..])
      case None => None
      case Some(j) => Some(j + 1)
  }

  /** The tokens of every `<doc:TOKEN>` in `text`, in order of appearance.
      At each position the regular expression either matches `<doc:`, a
      non-empty run of characters other than `>`, and `>` (the token is that
      run and the scan resumes after the `>`), or the scan moves on by one
      character. */
  function ParseTocOrder(text: string): (tokens: seq<string>)
    ensures forall k :: 0 <= k < |tokens| ==> tokens[k] != [] && '>' !in tokens[k]
    ensures 7 * |tokens| <= |text|
    decreases |text|
  {
    if text == [] then []
    else if StartsWith(text, Open) then
      match FindClose(text[|Open|..])
      case Some(j) =>
        if j > 0 then [text[|Open|..|Open| + j]] + ParseTocOrder(text[|Open| + j + 1..])
        else ParseTocOrder(text[1..])
      case None => ParseTocOrder(text[1..])
    else ParseTocOrder(text[1..])
  }

  /** The marker a table of contents writes for one document. */
  function Marker(token: string): string {
    Open + token + ">"
  }

  /** A well-formed token: what the regular expression's group can capture. */
  predicate ValidToken(token: string) {
    token != [] && '>' !in token
  }

  /** A table of contents that lists `tokens`: marker `k` is preceded by
      the text `seps[k]`, and the text `tail` ends the file. */
  function TocText(tokens: seq<string>, seps: seq<string>, tail: string): string
    requires |seps| == |tokens|
  {
    if tokens == [] then tail else seps[0] + Marker(tokens[0]) + TocText(tokens[1..], seps[1..], tail)
  }

  /** Text without `<` contributes no token and does not disturb what follows. */
  lemma {:induction false} PlainPrefix(p: string, rest: string)
    requires '<' !in p
    ensures ParseTocOrder(p + rest) == ParseTocOrder(rest)
    decreases |p|
  {
    if p != [] {
      assert !StartsWith(p + rest, Open) by {
        assert (p + rest)[0] == p[0] && p[0] in p && Open[0] == '<';
      }
      assert (p + rest)[1..] == p[1..] + rest;
      PlainPrefix(p[1..], rest);
    } else {
      assert p + rest == rest;
    }
  }

  /** A complete marker yields its token, then the scan continues after it;
      this holds even when the token itself contains `<doc:`. */
  lemma MarkerStep(token: string, rest: string)
    requires ValidToken(token)
    ensures ParseTocOrder(Marker(token) + rest) == [token] + ParseTocOrder(rest)
  {
    var text := Marker(token) + rest;
    var tail := text[|Open|..];
    assert text[..|Open|] == Open;
    assert tail == token + ">" + rest;
    assert tail[|token|] == '>';
    var j := FindClose(tail);
    assert j == Some(|token|) by {
      forall k | 0 <= k < |token| ensures tail[k] != '>' {
        assert tail[k] == token[k];
      }
    }
    assert text[|Open|..|Open| + |token|] == token;
    assert text[|Open| + |token| + 1..] == rest;
  }

  /** An empty reference `<doc:>` contributes nothing. */
  lemma EmptyMarkerIgnored(rest: string)
    ensures ParseTocOrder(Open + ">" + rest) == ParseTocOrder(rest)
  {
    var text := Open + ">" + rest;
    assert text[..|Open|] == Open;
    assert text[|Open|..][0] == '>';
    assert text[1..] == "doc:>" + rest;
    PlainPrefix("doc:>", rest);
  }

  /** `<doc:` occurs in `text` at index `i`. */
  predicate OpensAt(text: string, i: nat) {
    i + |Open| <= |text| && text[i..i + |Open|] == Open
  }

  /** Text in which `<doc:` never occurs holds no reference. */
  lemma {:induction false} NoOpenNoTokens(text: string)
    requires forall i: nat :: !OpensAt(text, i)
    ensures ParseTocOrder(text) == []
    decreases |text|
  {
    if text != [] {
      assert !OpensAt(text, 0);
      assert !StartsWith(text, Open);
      forall i: nat ensures !OpensAt(text[1..], i) {
        assert !OpensAt(text, i + 1);
        if i + |Open| <= |text[1..]| {
          assert text[1..][i..i + |Open|] == text[i + 1..i + 1 + |Open|];
        }
      }
      NoOpenNoTokens(text[1..]);
    }
  }

  /** Reading back a table of contents written from `tokens` gives the same
      tokens, in the same order and with duplicates kept, whatever text
      without `<` lies between, before and after the markers. */
  lemma {:induction false} TocRoundTrip(tokens: seq<string>, seps: seq<string>, tail: string)
    requires |seps| == |tokens|
    requires forall k :: 0 <= k < |tokens| ==> ValidToken(tokens[k]) && '<' !in seps[k]
    requires '<' !in tail
    ensures ParseTocOrder(TocText(tokens, seps, tail)) == tokens
  {
    if tokens == [] {
      PlainPrefix(tail, []);
      assert tail + [] == tail;
    } else {
      var rest := TocText(tokens[1..], seps[1..], tail);
      assert TocText(tokens, seps, tail) == seps[0] + (Marker(tokens[0]) + rest);
      PlainPrefix(seps[0], Marker(tokens[0]) + rest);
      MarkerStep(tokens[0], rest);
      forall k | 0 <= k < |tokens| - 1 ensures ValidToken(tokens[1..][k]) && '<' !in seps[1..][k] {
        assert tokens[1..][k] == tokens[k + 1] && seps[1..][k] == seps[k + 1];
      }
      TocRoundTrip(tokens[1..], seps[1..], tail);
    }
  }

  /** `<doc:A> <doc:B> <doc:A>` lists A, B and A again: a repeated reference
      is not dropped. */
  lemma DuplicatesKept(a: string, b: string)
    requires ValidToken(a) && ValidToken(b)
    ensures ParseTocOrder(Marker(a) + " " + Marker(b) + " " + Marker(a)) == [a, b, a]
  {
    var text := Marker(a) + " " + Marker(b) + " " + Marker(a);
    var seps := ["", " ", " "];
    assert TocText([a], seps[2..], "") == " " + Marker(a) by {
      assert TocText([a][1..], seps[2..][1..], "") == "";
    }
    assert TocText([b, a], seps[1..], "") == " " + Marker(b) + " " + Marker(a) by {
      assert [b, a][1..] == [a] && seps[1..][1..] == seps[2..];
    }
    assert TocText([a, b, a], seps, "") == text by {
      assert [a, b, a][1..] == [b, a];
    }
    TocRoundTrip([a, b, a], seps, "");
  }

  /** `<doc:a<doc:b>` is one reference whose token is `a<doc:b`. */
  lemma NestedOpenInToken()
    ensures ParseTocOrder("<doc:a<doc:b>") == ["a<doc:b"]
  {
    MarkerStep("a<doc:b", "");
    assert Marker("a<doc:b") + "" == "<doc:a<doc:b>";
  }
}
