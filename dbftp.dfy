/**
  `DbFtpInterface.insert_subclip`: the text it hands to the FTP server and to
  MySQL for one identified subclip. The FTP upload, the file removal and the
  query execution themselves are outside the model; what is modelled is the
  names and the query text they receive, the doubling of single quotes inside
  the `segment_json` literal, and a reader for that query text that shows the
  five values come back out of it in order.
 */
module DbFtpInterface {
  import opened Wrappers
  import opened PyStr

  /** A subclip as the segmentation step hands it on: its content hash (`subclip[0]`)
      and the text `json.dumps(subclip[1])` of its segment metadata. */
  datatype Subclip = Subclip(hash: string, segmentJson: string)

  /** What one `insert_subclip` call sends out. */
  datatype Stored = Stored(storCommand: string, uploadedFile: string, removedFile: string, query: string)

  /** The values of the row the query inserts, as SQL reads them back. */
  datatype InsertRow = InsertRow(hash: string, evaluatedBy: string, firstUsername: int, speaker: int, segmentJson: string)

  /** Directory where the node keeps a subclip until it is uploaded. */
  const SaveDir := "tmp_audio_files_save/"

  /** The local file of the subclip with this hash. */
  function SavedFile(hash: string): string
  {
    SaveDir + hash + ".wav"
  }

  /** The remote file name a subclip is stored under. */
  function RemoteName(hash: string): string
  {
    hash + ".wav"
  }

  /** Distinct hashes never share a local file. */
  lemma {:induction false} SavedFileInjective(a: string, b: string)
    requires SavedFile(a) == SavedFile(b)
    ensures a == b
  {
    var n := |SaveDir|;
    assert a == SavedFile(a)[n..|SavedFile(a)| - 4];
    assert b == SavedFile(b)[n..|SavedFile(b)| - 4];
  }

  /** `text.replace("'", "''")`. */
  function Escape(s: string): (r: string)
    ensures |r| == |s| + Count(s, '\'')
  {
    if s == [] then [] else (if s[0] == '\'' then "''" else [s[0]]) + Escape(s[1..])
  }

  /** Each `''` collapsed back to one `'`. */
  function Unescape(r: string): string
  {
    if r == [] then []
    else if |r| >= 2 && r[0] == '\'' && r[1] == '\'' then "'" + Unescape(r[2..])
    else [r[0]] + Unescape(r[1..])
  }

  /** The text with every `'` left out. */
  function WithoutQuotes(s: string): string
  {
    if s == [] then [] else (if s[0] == '\'' then [] else [s[0]]) + WithoutQuotes(s[1..])
  }

  /** The number of `'` at the start of `s`. */
  function QuoteRun(s: string): nat
  {
    if s != [] && s[0] == '\'' then 1 + QuoteRun(s[1..]) else 0
  }

  lemma {:induction false} EscapeAppend(a: string, b: string)
    ensures Escape(a + b) == Escape(a) + Escape(b)
  {
    if a != [] {
      assert (a + b)[0] == a[0];
      assert (a + b)[1..] == a[1..] + b;
      EscapeAppend(a[1..], b);
    } else {
      assert a + b == b;
    }
  }

  /** Collapsing the doubled quotes recovers the original text. */
  lemma {:induction false} UnescapeEscape(s: string)
    ensures Unescape(Escape(s)) == s
  {
    if s != [] {
      UnescapeEscape(s[1..]);
      var r := Escape(s);
      if s[0] == '\'' {
        assert r == "''" + Escape(s[1..]);
        assert r[2..] == Escape(s[1..]);
      } else {
        assert r == [s[0]] + Escape(s[1..]);
        assert r[1..] == Escape(s[1..]);
      }
    }
  }

  /** Escaping leaves every character other than `'` in place and in order. */
  lemma {:induction false} EscapeKeepsOtherCharacters(s: string)
    ensures WithoutQuotes(Escape(s)) == WithoutQuotes(s)
  {
    if s != [] {
      EscapeKeepsOtherCharacters(s[1..]);
      var r := Escape(s);
      if s[0] == '\'' {
        assert r == "''" + Escape(s[1..]);
        assert r[1..][1..] == Escape(s[1..]);
      } else {
        assert r == [s[0]] + Escape(s[1..]);
        assert r[1..] == Escape(s[1..]);
      }
    }
  }

  /** Every maximal run of `'` in the escaped text has even length: a run that
      starts at position `i` (at the start, or after a character that is not a
      quote) is an even number of quotes long. */
  lemma {:induction false} EscapedQuoteRunsEven(s: string, i: nat)
    requires i <= |Escape(s)|
    requires i == 0 || Escape(s)[i - 1] != '\''
    ensures QuoteRun(Escape(s)[i..]) % 2 == 0
  {
    if s != [] {
      var r := Escape(s);
      var r' := Escape(s[1..]);
      if s[0] == '\'' {
        assert r == "''" + r';
        if i == 0 {
          EscapedQuoteRunsEven(s[1..], 0);
          assert r[i..][1..][1..] == r'[0..];
        } else {
          assert i >= 3;
          assert r[i..] == r'[i - 2..];
          assert r[i - 1] == r'[i - 3];
          EscapedQuoteRunsEven(s[1..], i - 2);
        }
      } else {
        assert r == [s[0]] + r';
        if i > 0 {
          assert r[i..] == r'[i - 1..];
          assert i - 1 > 0 ==> r[i - 1] == r'[i - 2];
          EscapedQuoteRunsEven(s[1..], i - 1);
        }
      }
    }
  }

  /**
    Reads the body of a single-quoted SQL string literal that starts just after
    its opening quote: `''` stands for one quote and a lone `'` closes the
    literal. Gives the value and the text after the closing quote.
   */
  function ReadSqlString(r: string): Option<(string, string)>
  {
    if r == [] then None
    else if r[0] == '\'' then
      if |r| >= 2 && r[1] == '\'' then
        match ReadSqlString(r[2..])
        case None => None
        case Some(p) => Some(("'" + p.0, p.1))
      else Some(("", r[1..]))
    else
      match ReadSqlString(r[1..])
      case None => None
      case Some(p) => Some(([r[0]] + p.0, p.1))
  }

  /** A doubled quote reads as one quote, and the reading goes on. */
  lemma {:induction false} ReadDoubledQuote(t: string, v: string, rest: string)
    requires ReadSqlString(t) == Some((v, rest))
    ensures ReadSqlString("''" + t) == Some(("'" + v, rest))
  {
    assert ("''" + t)[2..] == t;
  }

  /** Any other character is kept, and the reading goes on. */
  lemma {:induction false} ReadPlainChar(c: char, t: string, v: string, rest: string)
    requires c != '\'' && ReadSqlString(t) == Some((v, rest))
    ensures ReadSqlString([c] + t) == Some(([c] + v, rest))
  {
    assert ([c] + t)[1..] == t;
  }

  /** A lone quote closes the literal. */
  lemma {:induction false} ReadClosingQuote(rest: string)
    requires rest == [] || rest[0] != '\''
    ensures ReadSqlString("'" + rest) == Some(("", rest))
  {
    assert ("'" + rest)[1..] == rest;
  }

  /** An escaped text followed by one closing quote reads back as exactly that
      text: the literal ends where the builder closed it, not earlier. */
  lemma {:induction false} ReadEscaped(s: string, rest: string)
    requires rest == [] || rest[0] != '\''
    ensures ReadSqlString(Escape(s) + "'" + rest) == Some((s, rest))
  {
    if s == [] {
      assert Escape(s) + "'" + rest == "'" + rest;
      ReadClosingQuote(rest);
    } else {
      ReadEscaped(s[1..], rest);
      ReadEscapedStep(s, rest);
    }
  }

  /** One character more in front of the escaped text reads back as that character more. */
  lemma {:induction false} ReadEscapedStep(s: string, rest: string)
    requires s != []
    requires ReadSqlString(Escape(s[1..]) + "'" + rest) == Some((s[1..], rest))
    ensures ReadSqlString(Escape(s) + "'" + rest) == Some((s, rest))
  {
    var tail := Escape(s[1..]) + "'" + rest;
    if s[0] == '\'' {
      EscapeQuoteFront(s, rest);
      ReadDoubledQuote(tail, s[1..], rest);
    } else {
      EscapePlainFront(s, rest);
      ReadPlainChar(s[0], tail, s[1..], rest);
    }
  }

  lemma {:induction false} EscapeQuoteFront(s: string, rest: string)
    requires s != [] && s[0] == '\''
    ensures Escape(s) + "'" + rest == "''" + (Escape(s[1..]) + "'" + rest)
    ensures "'" + s[1..] == s
  {
    var e := Escape(s[1..]);
    assert Escape(s) == "''" + e;
    Regroup("''", e, "'" + rest);
  }

  lemma {:induction false} EscapePlainFront(s: string, rest: string)
    requires s != [] && s[0] != '\''
    ensures Escape(s) + "'" + rest == [s[0]] + (Escape(s[1..]) + "'" + rest)
    ensures [s[0]] + s[1..] == s
  {
    var e := Escape(s[1..]);
    assert Escape(s) == [s[0]] + e;
    Regroup([s[0]], e, "'" + rest);
  }

  lemma {:induction false} Regroup(a: string, b: string, c: string)
    ensures a + b + c == a + (b + c)
  {
  }

  /** The quoted `segment_json` literal: `'[` escaped JSON `]'`. */
  function SegmentLiteral(json: string): string
  {
    "'[" + Escape(json) + "]'"
  }

  const InsertHead := "INSERT INTO subclips (hash, evaluated_by, first_username, speaker, segment_json) values "

  /** The insert statement, fields in the order hash, evaluated_by, first_username, speaker, segment_json. */
  function InsertQuery(hash: string, evaluatedBy: string, firstUsername: int, speaker: int, json: string): string
  {
    InsertHead + "(\"" + hash + "\", \"" + evaluatedBy + "\"," + ValuesText(firstUsername, speaker, json)
  }

  /** The unquoted tail of the insert statement: `first_username, speaker, '[…]')`. */
  function ValuesText(firstUsername: int, speaker: int, json: string): string
  {
    IntText(firstUsername) + ", " + IntText(speaker) + ", " + SegmentLiteral(json) + ")"
  }

  /** The text after a literal prefix. */
  function Expect(s: string, lit: string): Option<string>
  {
    if |lit| <= |s| && s[..|lit|] == lit then Some(s[|lit|..]) else None
  }

  /** The text up to the first `c` and the text after it. */
  function ReadUntil(s: string, c: char): Option<(string, string)>
  {
    if s == [] then None
    else if s[0] == c then Some(([], s[1..]))
    else
      match ReadUntil(s[1..], c)
      case None => None
      case Some(p) => Some(([s[0]] + p.0, p.1))
  }

  lemma {:induction false} ExpectPrefix(lit: string, rest: string)
    ensures Expect(lit + rest, lit) == Some(rest)
  {
    assert (lit + rest)[..|lit|] == lit;
    assert (lit + rest)[|lit|..] == rest;
  }

  lemma {:induction false} ReadUntilPiece(a: string, c: char, rest: string)
    requires c !in a
    ensures ReadUntil(a + [c] + rest, c) == Some((a, rest))
  {
    var s := a + [c] + rest;
    if a == [] {
      assert s[1..] == rest;
    } else {
      assert s[1..] == a[1..] + [c] + rest;
      ReadUntilPiece(a[1..], c, rest);
      assert [a[0]] + a[1..] == a;
    }
  }

  /** Reads the speaker value and the segment literal: `N, '…')`. */
  function ParseTail(r: string): Option<(int, string)>
  {
    var speaker :- ReadUntil(r, ',');
    var r1 :- Expect(speaker.1, " '");
    var segment :- ReadSqlString(r1);
    var sp :- ParseInt(speaker.0);
    if segment.1 == ")" then Some((sp, segment.0)) else None
  }

  /** Reads the first_username value and then the tail: `N, N, '…')`. */
  function ParseNumbers(r: string): Option<(int, int, string)>
  {
    var user :- ReadUntil(r, ',');
    var r1 :- Expect(user.1, " ");
    var tail :- ParseTail(r1);
    var u :- ParseInt(user.0);
    Some((u, tail.0, tail.1))
  }

  /** Reads the five values back out of an insert statement of the shape above. */
  function ParseInsert(q: string): Option<InsertRow>
  {
    var r0 :- Expect(q, InsertHead + "(\"");
    var hash :- ReadUntil(r0, '"');
    var r2 :- Expect(hash.1, ", \"");
    var evaluatedBy :- ReadUntil(r2, '"');
    var r4 :- Expect(evaluatedBy.1, ",");
    var nums :- ParseNumbers(r4);
    Some(InsertRow(hash.0, evaluatedBy.0, nums.0, nums.1, nums.2))
  }

  /** A character other than `'` is copied unchanged by the escaping. */
  lemma {:induction false} EscapePlainChar(c: char, t: string)
    requires c != '\''
    ensures Escape([c] + t) == [c] + Escape(t)
  {
    assert ([c] + t)[1..] == t;
  }

  /** Brackets are copied unchanged around the escaped JSON. */
  lemma {:induction false} EscapeBracketed(json: string)
    ensures Escape("[" + json + "]") == "[" + Escape(json) + "]"
  {
    assert "[" + json + "]" == ['['] + (json + "]");
    EscapePlainChar('[', json + "]");
    EscapeAppend(json, "]");
    EscapePlainChar(']', []);
    assert "]" == [']'] + [];
  }

  /** What follows the opening quote of a quoted, bracketed text is that text and the closing quote. */
  lemma {:induction false} QuotedTail(e: string)
    ensures ("'[" + e + "]'")[1..] + ")" == ("[" + e + "]") + "'" + ")"
  {
    assert "'[" + e + "]'" == "'" + ("[" + e + "]'");
  }

  /** What follows the opening quote of the literal is the escaped body and the closing quote. */
  lemma {:induction false} SegmentLiteralTail(json: string)
    ensures SegmentLiteral(json)[1..] + ")" == Escape("[" + json + "]") + "'" + ")"
  {
    EscapeBracketed(json);
    QuotedTail(Escape(json));
  }

  lemma {:induction false} SegmentLiteralReads(json: string)
    ensures ReadSqlString(SegmentLiteral(json)[1..] + ")") == Some(("[" + json + "]", ")"))
  {
    SegmentLiteralTail(json);
    ReadEscaped("[" + json + "]", ")");
  }

  lemma {:induction false} ParseTailOf(speaker: int, json: string)
    ensures ParseTail(IntText(speaker) + ", " + SegmentLiteral(json) + ")") == Some((speaker, "[" + json + "]"))
  {
    var S := IntText(speaker);
    var rest := SegmentLiteral(json)[1..] + ")";
    assert S + ", " + SegmentLiteral(json) + ")" == S + [','] + (" '" + rest);
    assert ',' !in S;
    ReadUntilPiece(S, ',', " '" + rest);
    ExpectPrefix(" '", rest);
    SegmentLiteralReads(json);
    ParseIntOfIntText(speaker);
  }

  lemma {:induction false} ParseNumbersOf(user: int, speaker: int, json: string)
    ensures ParseNumbers(ValuesText(user, speaker, json)) == Some((user, speaker, "[" + json + "]"))
  {
    var U := IntText(user);
    var rest := IntText(speaker) + ", " + SegmentLiteral(json) + ")";
    assert ValuesText(user, speaker, json) == U + [','] + (" " + rest);
    assert ',' !in U;
    ReadUntilPiece(U, ',', " " + rest);
    ExpectPrefix(" ", rest);
    ParseTailOf(speaker, json);
    ParseIntOfIntText(user);
  }

  /** The insert statement regrouped as the reader takes it apart, piece by piece. */
  lemma {:induction false} QueryShape(hash: string, evaluatedBy: string, values: string)
    ensures InsertHead + "(\"" + hash + "\", \"" + evaluatedBy + "\"," + values
         == (InsertHead + "(\"") + (hash + ['"'] + (", \"" + (evaluatedBy + ['"'] + ("," + values))))
  {
    var tail := evaluatedBy + ['"'] + ("," + values);
    assert evaluatedBy + "\"," + values == tail;
    assert "\", \"" + evaluatedBy + "\"," + values == ['"'] + (", \"" + tail);
    assert hash + "\", \"" + evaluatedBy + "\"," + values == hash + ['"'] + (", \"" + tail);
  }

  /**
    The insert statement carries exactly the five values, in their order, and
    the segment column receives `[` + the JSON text + `]` whatever quotes the
    JSON holds. The hash and evaluated_by values are put between double quotes
    without escaping, so they must not contain `"` (a hex digest never does).
   */
  lemma {:induction false} ParseInsertQuery(hash: string, evaluatedBy: string, firstUsername: int, speaker: int, json: string)
    requires '"' !in hash && '"' !in evaluatedBy
    ensures ParseInsert(InsertQuery(hash, evaluatedBy, firstUsername, speaker, json))
         == Some(InsertRow(hash, evaluatedBy, firstUsername, speaker, "[" + json + "]"))
  {
    var nums := ValuesText(firstUsername, speaker, json);
    var rest2 := evaluatedBy + ['"'] + ("," + nums);
    var rest0 := hash + ['"'] + (", \"" + rest2);
    var q := InsertQuery(hash, evaluatedBy, firstUsername, speaker, json);
    QueryShape(hash, evaluatedBy, nums);
    assert Expect(q, InsertHead + "(\"") == Some(rest0) by {
      ExpectPrefix(InsertHead + "(\"", rest0);
    }
    assert ReadUntil(rest0, '"') == Some((hash, ", \"" + rest2)) by {
      ReadUntilPiece(hash, '"', ", \"" + rest2);
    }
    assert Expect(", \"" + rest2, ", \"") == Some(rest2) by {
      ExpectPrefix(", \"", rest2);
    }
    assert ReadUntil(rest2, '"') == Some((evaluatedBy, "," + nums)) by {
      ReadUntilPiece(evaluatedBy, '"', "," + nums);
    }
    assert Expect("," + nums, ",") == Some(nums) by {
      ExpectPrefix(",", nums);
    }
    ParseNumbersOf(firstUsername, speaker, json);
  }

  /**
    `insert_subclip(subclip, first_username, speaker, ordered_results)`: uploads
    the saved local file under the hash's `.wav` name, removes the local file,
    and inserts the row whose segment column is the bracketed JSON text.
   */
  function InsertSubclip(subclip: Subclip, firstUsername: int, speaker: int, evaluatedBy: string): (r: Stored)
    ensures r.storCommand == "STOR " + RemoteName(subclip.hash)
    ensures r.uploadedFile == r.removedFile == SavedFile(subclip.hash)
    ensures '"' !in subclip.hash && '"' !in evaluatedBy ==>
              ParseInsert(r.query)
              == Some(InsertRow(subclip.hash, evaluatedBy, firstUsername, speaker, "[" + subclip.segmentJson + "]"))
  {
    var path := subclip.hash;
    assert '"' !in path && '"' !in evaluatedBy ==>
             ParseInsert(InsertQuery(path, evaluatedBy, firstUsername, speaker, subclip.segmentJson))
             == Some(InsertRow(path, evaluatedBy, firstUsername, speaker, "[" + subclip.segmentJson + "]")) by {
      if '"' !in path && '"' !in evaluatedBy {
        ParseInsertQuery(path, evaluatedBy, firstUsername, speaker, subclip.segmentJson);
      }
    }
    Stored("STOR " + path + ".wav", SaveDir + path + ".wav", SaveDir + path + ".wav",
           InsertQuery(path, evaluatedBy, firstUsername, speaker, subclip.segmentJson))
  }
}
