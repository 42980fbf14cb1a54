/**
 * Finding a guest's address in a DHCP lease file: comments are cut off, records parsed,
 * and the newest unexpired lease of the adapter chosen if it is the only newest one.
 */
module LeaseSelection {
  import opened Wrappers
  import opened WhiteSpace

  datatype Lease = Lease(address: nat, starts: int, ends: int, mac: string)

  datatype Network = Network(address: nat, prefix: nat)

  // ---- Comments ----

  /** What is kept of a line, and whether it ends inside quotes. */
  function Scan(line: string, quoted: bool, escaped: bool): (string, bool)
  {
    if line == "" then ("", quoted)
    else
      var c, rest := line[0], line[1..];
      if !escaped && c == '#' && !quoted then ("", false)
      else
        var (kept, open) :=
          if escaped then Scan(rest, quoted, false)
          else if c == '\\' && quoted then Scan(rest, quoted, true)
          else if c == '"' then Scan(rest, !quoted, false)
          else Scan(rest, quoted, false);
        ([c] + kept, open)
  }

  function TrimRight(s: string): string
  {
    if s != "" && IsSpace(s[|s| - 1]) then TrimRight(s[..|s| - 1]) else s
  }

  function TrimLeft(s: string): string
  {
    if s != "" && IsSpace(s[0]) then TrimLeft(s[1..]) else s
  }

  function Trim(s: string): string { TrimLeft(TrimRight(s)) }

  /** A line without its comment; none when a quote is left open. */
  function StripComment(line: string): Option<string>
  {
    var (kept, open) := Scan(line, false, false);
    if open then None else Some(Trim(kept))
  }

  predicate AllSpace(s: string) { forall i :: 0 <= i < |s| ==> IsSpace(s[i]) }

  lemma {:induction false} TrimRightBlanks(s: string, blanks: string)
    requires AllSpace(blanks)
    ensures TrimRight(s + blanks) == TrimRight(s)
    decreases |blanks|
  {
    if blanks == "" {
      assert s + blanks == s;
    } else {
      var shorter := blanks[..|blanks| - 1];
      assert (s + blanks)[..|s + blanks| - 1] == s + shorter;
      TrimRightBlanks(s, shorter);
    }
  }

  lemma {:induction false} ScanBlanks(blanks: string, comment: string)
    requires AllSpace(blanks)
    ensures Scan(blanks + "#" + comment, false, false) == (blanks, false)
  {
    var s := blanks + "#" + comment;
    if blanks == "" {
      assert s[0] == '#';
    } else {
      assert s[1..] == blanks[1..] + "#" + comment;
      ScanBlanks(blanks[1..], comment);
      assert blanks == [blanks[0]] + blanks[1..];
    }
  }

  /** A comment after closed quotes leaves what was kept, but for blanks before it. */
  lemma {:induction false} ScanComment(line: string, quoted: bool, escaped: bool, blanks: string, comment: string)
    requires AllSpace(blanks) && !Scan(line, quoted, escaped).1 && (escaped ==> quoted)
    ensures var (kept, open) := Scan(line + blanks + "#" + comment, quoted, escaped);
            !open && (kept == Scan(line, quoted, escaped).0 || kept == Scan(line, quoted, escaped).0 + blanks)
    decreases |line|
  {
    var s := line + blanks + "#" + comment;
    if line == "" {
      assert s == blanks + "#" + comment;
      ScanBlanks(blanks, comment);
      assert "" + blanks == blanks;
    } else if !escaped && line[0] == '#' && !quoted {
      assert s[0] == '#';
    } else {
      assert s[0] == line[0] && s[1..] == line[1..] + blanks + "#" + comment;
      if escaped {
        ScanComment(line[1..], quoted, false, blanks, comment);
      } else if line[0] == '\\' && quoted {
        ScanComment(line[1..], quoted, true, blanks, comment);
      } else if line[0] == '"' {
        ScanComment(line[1..], !quoted, false, blanks, comment);
      } else {
        ScanComment(line[1..], quoted, false, blanks, comment);
      }
    }
  }

  /** A comment may be added to any line whose quotes are closed. */
  lemma CommentIgnored(line: string, blanks: string, comment: string)
    requires AllSpace(blanks) && StripComment(line).Some?
    ensures StripComment(line + blanks + "#" + comment) == StripComment(line)
  {
    ScanComment(line, false, false, blanks, comment);
    TrimRightBlanks(Scan(line, false, false).0, blanks);
  }

  lemma {:induction false} ScanKeepsPrefix(line: string, quoted: bool, escaped: bool)
    requires escaped ==> quoted
    ensures var kept := Scan(line, quoted, escaped).0;
            kept <= line && (kept != line ==> line[|kept|] == '#' && !Scan(line, quoted, escaped).1)
  {
    if line != "" && (escaped || line[0] != '#' || quoted) {
      assert line == [line[0]] + line[1..];
      ScanKeepsPrefix(line[1..], if !escaped && line[0] == '"' then !quoted else quoted,
                      !escaped && line[0] == '\\' && quoted);
    }
  }

  predicate IsTrimmed(s: string) { s != "" ==> !IsSpace(s[0]) && !IsSpace(s[|s| - 1]) }

  lemma {:induction false} TrimRightKeeps(s: string)
    ensures TrimRight(s) == s <==> s == "" || !IsSpace(s[|s| - 1])
  {
    TrimRightIs(s);
    if s != "" && IsSpace(s[|s| - 1]) {
      TrimRightIs(s[..|s| - 1]);
      assert |TrimRight(s)| < |s|;
    }
  }

  lemma {:induction false} TrimLeftKeeps(s: string)
    ensures TrimLeft(s) == s <==> s == "" || !IsSpace(s[0])
  {
    if s != "" && IsSpace(s[0]) {
      TrimLeftIs(s[1..]);
      assert |TrimLeft(s)| < |s|;
    }
  }

  lemma {:induction false} TrimBothKeep(s: string)
    ensures Trim(s) == s <==> TrimRight(s) == s && TrimLeft(s) == s
  {
    TrimRightIs(s);
    TrimLeftIs(TrimRight(s));
  }

  /** A text is trimmed exactly when trimming keeps it. */
  lemma TrimmedExactly(s: string)
    ensures IsTrimmed(s) <==> Trim(s) == s
  {
    TrimRightKeeps(s);
    TrimLeftKeeps(s);
    TrimBothKeep(s);
  }

  /** `t` is `s` from `i` to `j`, with nothing but blanks around. */
  predicate TrimmedTo(s: string, t: string, i: nat, j: nat)
  {
    i <= j <= |s| && t == s[i..j] && IsTrimmed(t) && AllSpace(s[..i]) && AllSpace(s[j..])
  }

  lemma {:induction false} TrimRightIs(s: string)
    ensures var t := TrimRight(s);
            t <= s && AllSpace(s[|t|..]) && (t != "" ==> !IsSpace(t[|t| - 1]))
  {
    if s != "" && IsSpace(s[|s| - 1]) {
      var before, t := s[..|s| - 1], TrimRight(s);
      TrimRightIs(before);
      assert s[|t|..] == before[|t|..] + [s[|s| - 1]];
    }
  }

  lemma {:induction false} TrimLeftIs(s: string)
    ensures var t := TrimLeft(s);
            |t| <= |s| && t == s[|s| - |t|..] && AllSpace(s[..|s| - |t|]) && (t != "" ==> !IsSpace(t[0]))
  {
    if s != "" && IsSpace(s[0]) {
      var rest, t := s[1..], TrimLeft(s);
      TrimLeftIs(rest);
      assert s[|s| - |t|..] == rest[|rest| - |t|..];
      assert s[..|s| - |t|] == [s[0]] + rest[..|rest| - |t|];
    }
  }

  lemma TrimIs(s: string)
    ensures exists i, j :: TrimmedTo(s, Trim(s), i, j)
  {
    TrimRightIs(s);
    var right := TrimRight(s);
    TrimLeftIs(right);
    var t := TrimLeft(right);
    var i, j := |right| - |t|, |right|;
    assert right == s[..j] && t == s[i..j] && right[..i] == s[..i];
    assert t != "" ==> t[|t| - 1] == right[|right| - 1];
    assert TrimmedTo(s, Trim(s), i, j);
  }

  /** What is left of a line is what stands before its comment, without the blanks around it. */
  lemma StripExactly(line: string)
    requires StripComment(line).Some?
    ensures exists k, i, j ::
              && 0 <= k <= |line| && (k < |line| ==> line[k] == '#')
              && TrimmedTo(line[..k], StripComment(line).value, i, j)
  {
    var kept := Scan(line, false, false).0;
    ScanKeepsPrefix(line, false, false);
    TrimIs(kept);
    assert line[..|kept|] == kept;
  }

  // ---- Which comments are cut off ----

  /** Quoted text: no quote in it but one that is escaped. */
  predicate QuotedText(s: string)
  {
    || s == ""
    || (s[0] != '"' && s[0] != '\\' && QuotedText(s[1..]))
    || (|s| > 1 && s[0] == '\\' && QuotedText(s[2..]))
  }

  datatype Piece = Bare(character: char) | Quoted(text: string)

  predicate WellQuoted(p: Piece)
  {
    match p
    case Bare(c) => c != '"' && c != '#'
    case Quoted(text) => QuotedText(text)
  }

  function TextOf(p: Piece): string
  {
    match p
    case Bare(c) => [c]
    case Quoted(text) => "\"" + text + "\""
  }

  function LineOf(pieces: seq<Piece>): string
  {
    if pieces == [] then "" else TextOf(pieces[0]) + LineOf(pieces[1..])
  }

  predicate AllQuoted(pieces: seq<Piece>) { forall i :: 0 <= i < |pieces| ==> WellQuoted(pieces[i]) }

  /** Quoted text that the line ends in, perhaps after a lone backslash. */
  predicate Unfinished(s: string)
  {
    QuotedText(s) || (s != "" && s[|s| - 1] == '\\' && QuotedText(s[..|s| - 1]))
  }

  /** `text` is kept, whatever the rest of the line; it starts inside quotes or not, and ends there or not. */
  ghost predicate Kept(text: string, rest: string, quoted: bool, after: bool)
  {
    Scan(text + rest, quoted, false) == (text + Scan(rest, after, false).0, Scan(rest, after, false).1)
  }

  lemma KeptBoth(a: string, b: string, rest: string, quoted: bool, between: bool, after: bool)
    requires Kept(a, b + rest, quoted, between) && Kept(b, rest, between, after)
    ensures Kept(a + b, rest, quoted, after)
  {
    assert a + b + rest == a + (b + rest);
    assert a + (b + Scan(rest, after, false).0) == a + b + Scan(rest, after, false).0;
  }

  lemma KeptNone(rest: string, quoted: bool)
    ensures Kept("", rest, quoted, quoted)
  {
    assert "" + rest == rest && "" + Scan(rest, quoted, false).0 == Scan(rest, quoted, false).0;
  }

  lemma KeptOne(c: char, rest: string, quoted: bool)
    requires if quoted then c != '\\' else c != '#'
    ensures Kept([c], rest, quoted, if c == '"' then !quoted else quoted)
  {
    assert ([c] + rest)[1..] == rest;
  }

  lemma KeptPair(c: char, rest: string)
    ensures Kept(['\\', c], rest, true, true)
  {
    var s := ['\\', c] + rest;
    assert s[1..] == [c] + rest && s[1..][1..] == rest;
    assert ['\\'] + ([c] + Scan(rest, true, false).0) == ['\\', c] + Scan(rest, true, false).0;
  }

  lemma {:induction false} QuotedIsKept(text: string, rest: string)
    requires QuotedText(text)
    ensures Kept(text, rest, true, true)
    decreases |text|
  {
    if text == "" {
      KeptNone(rest, true);
    } else if text[0] != '\\' {
      assert text == [text[0]] + text[1..];
      KeptOne(text[0], text[1..] + rest, true);
      QuotedIsKept(text[1..], rest);
      KeptBoth([text[0]], text[1..], rest, true, true, true);
    } else {
      assert text == text[..2] + text[2..] && text[..2] == ['\\', text[1]];
      KeptPair(text[1], text[2..] + rest);
      QuotedIsKept(text[2..], rest);
      KeptBoth(text[..2], text[2..], rest, true, true, true);
    }
  }

  lemma PieceIsKept(p: Piece, rest: string)
    requires WellQuoted(p)
    ensures Kept(TextOf(p), rest, false, false)
  {
    match p
    case Bare(c) => KeptOne(c, rest, false);
    case Quoted(text) =>
      KeptOne('"', rest, true);
      QuotedIsKept(text, ['"'] + rest);
      KeptBoth(text, ['"'], rest, true, true, false);
      KeptOne('"', text + ['"'] + rest, false);
      KeptBoth(['"'], text + ['"'], rest, false, true, false);
      assert ['"'] + (text + ['"']) == TextOf(p);
  }

  lemma {:induction false} LineIsKept(pieces: seq<Piece>, rest: string)
    requires AllQuoted(pieces)
    ensures Kept(LineOf(pieces), rest, false, false)
  {
    if pieces == [] {
      KeptNone(rest, false);
    } else {
      var first, more := TextOf(pieces[0]), LineOf(pieces[1..]);
      PieceIsKept(pieces[0], more + rest);
      LineIsKept(pieces[1..], rest);
      KeptBoth(first, more, rest, false, false, false);
    }
  }

  lemma ScanUnfinished(s: string)
    requires Unfinished(s)
    ensures Scan(s, true, false).1
  {
    if QuotedText(s) {
      QuotedIsKept(s, "");
      assert s + "" == s;
    } else {
      var text, last := s[..|s| - 1], [s[|s| - 1]];
      assert s == text + last;
      QuotedIsKept(text, last);
      assert last[1..] == "";
    }
  }

  lemma CommentCut(line: string, tail: string)
    requires Kept(line, tail, false, false) && (tail == "" || tail[0] == '#')
    ensures StripComment(line + tail) == Some(Trim(line))
  {
    assert line + "" == line;
  }

  lemma OpenQuoteRefused(line: string, open: string)
    requires Kept(line, "\"" + open, false, false) && Unfinished(open)
    ensures StripComment(line + ("\"" + open)) == None
  {
    assert ("\"" + open)[1..] == open;
    ScanUnfinished(open);
  }

  /** What follows the pieces of a line: nothing, a comment, or a quote left open. */
  predicate Tail(s: string) { s == "" || s[0] == '#' || (s[0] == '"' && Unfinished(s[1..])) }

  /** A comment runs from the first `#` outside quotes; a quote left open refuses the line. */
  lemma CommentsCut(pieces: seq<Piece>, tail: string)
    requires AllQuoted(pieces) && Tail(tail)
    ensures StripComment(LineOf(pieces) + tail) ==
            if tail != "" && tail[0] == '"' then None else Some(Trim(LineOf(pieces)))
  {
    LineIsKept(pieces, tail);
    if tail != "" && tail[0] == '"' {
      assert tail == "\"" + tail[1..];
      OpenQuoteRefused(LineOf(pieces), tail[1..]);
    } else {
      CommentCut(LineOf(pieces), tail);
    }
  }

  lemma {:induction false} Closing(s: string) returns (k: nat)
    ensures k <= |s| && QuotedText(s[..k]) && ((k < |s| && s[k] == '"') || Unfinished(s))
    decreases |s|
  {
    if s == "" || s[0] == '"' {
      k := 0;
    } else if s[0] != '\\' {
      var j := Closing(s[1..]);
      k := j + 1;
      assert s[..k][1..] == s[1..][..j];
      UnfinishedAfter(s, 1);
    } else if |s| == 1 {
      k := 0;
      assert s[..|s| - 1] == "";
    } else {
      var j := Closing(s[2..]);
      k := j + 2;
      assert s[..k][2..] == s[2..][..j];
      UnfinishedAfter(s, 2);
    }
  }

  lemma UnfinishedAfter(s: string, n: nat)
    requires n <= |s| && if n == 1 then s[0] != '"' && s[0] != '\\' else n == 2 && s[0] == '\\'
    ensures Unfinished(s[n..]) ==> Unfinished(s)
  {
    if !QuotedText(s[n..]) && Unfinished(s[n..]) {
      var text := s[..|s| - 1];
      assert text[n..] == s[n..][..|s[n..]| - 1] && s[|s| - 1] == s[n..][|s[n..]| - 1];
    }
  }

  lemma FirstPiece(line: string) returns (p: Piece)
    requires !Tail(line)
    ensures WellQuoted(p) && TextOf(p) != "" && TextOf(p) <= line
  {
    if line[0] == '"' {
      var k := Closing(line[1..]);
      p := Quoted(line[1..][..k]);
      assert line[..k + 2] == ['"'] + line[1..][..k] + ['"'];
    } else {
      p := Bare(line[0]);
    }
  }

  lemma Regroup(line: string, text: string, rest: string, tail: string)
    requires text <= line && line[|text|..] == rest + tail
    ensures line == text + rest + tail
  {
    assert line == text + line[|text|..];
  }

  lemma PieceInFront(first: Piece, more: seq<Piece>)
    requires WellQuoted(first) && AllQuoted(more)
    ensures LineOf([first] + more) == TextOf(first) + LineOf(more) && AllQuoted([first] + more)
  {
    assert ([first] + more)[1..] == more;
  }

  /** Every line is pieces and a tail, so that `CommentsCut` is about all lines. */
  lemma {:induction false} EveryLine(line: string) returns (pieces: seq<Piece>, tail: string)
    ensures line == LineOf(pieces) + tail && AllQuoted(pieces) && Tail(tail)
    decreases |line|
  {
    if Tail(line) {
      pieces, tail := [], line;
    } else {
      var first := FirstPiece(line);
      var n := |TextOf(first)|;
      var more: seq<Piece>;
      more, tail := EveryLine(line[n..]);
      pieces := [first] + more;
      PieceInFront(first, more);
      Regroup(line, TextOf(first), LineOf(more), tail);
    }
  }

  /** `kept` already out, the rest of the line still to be scanned. */
  ghost predicate Scanned(line: string, kept: string, rest: string, quoted: bool, escaped: bool)
  {
    Scan(line, false, false) == (kept + Scan(rest, quoted, escaped).0, Scan(rest, quoted, escaped).1)
  }

  lemma ScannedOneMore(line: string, kept: string, rest: string, quoted: bool, escaped: bool)
    requires rest != "" && Scanned(line, kept, rest, quoted, escaped)
    requires escaped || rest[0] != '#' || quoted
    ensures var c := rest[0];
            Scanned(line, kept + [c], rest[1..], if !escaped && c == '"' then !quoted else quoted,
                    !escaped && c == '\\' && quoted)
  {
    var c := rest[0];
    var (more, open) := Scan(rest[1..], if !escaped && c == '"' then !quoted else quoted,
                             !escaped && c == '\\' && quoted);
    assert kept + ([c] + more) == kept + [c] + more;
  }

  method StripLeaseComment(line: string) returns (r: Option<string>)
    ensures r == StripComment(line)
  {
    var quoted, escaped, output, i := false, false, "", 0;
    assert line[0..] == line && "" + Scan(line, false, false).0 == Scan(line, false, false).0;
    while i < |line|
      invariant 0 <= i <= |line|
      invariant Scanned(line, output, line[i..], quoted, escaped)
    {
      var character := line[i];
      assert line[i..][1..] == line[i + 1..];
      if !escaped && character == '#' && !quoted {
        break;
      }
      ScannedOneMore(line, output, line[i..], quoted, escaped);
      output := output + [character];
      if escaped {
        escaped := false;
      } else if character == '\\' && quoted {
        escaped := true;
      } else if character == '"' {
        quoted := !quoted;
      }
      i := i + 1;
    }
    assert output + "" == output;
    r := if quoted then None else Some(Trim(output));
  }

  // ---- Records ----

  /** How the texts inside a record are read; each may refuse. */
  datatype Formats = Formats(
    header: string -> Option<string>,
    address: string -> Option<nat>,
    timestamp: (string, string) -> Option<int>,
    hardware: string -> Option<string>)

  predicate StartsWith(s: string, prefix: string) { prefix <= s }

  function Named(statements: seq<string>, prefix: string): seq<string>
  {
    if statements == [] then []
    else (if StartsWith(statements[0], prefix) then [statements[0]] else []) + Named(statements[1..], prefix)
  }

  const STARTS := "starts "
  const ENDS := "ends "
  const HARDWARE := "hardware "

  function BuildLease(f: Formats, addressText: string, statements: seq<string>): Option<Lease>
  {
    match f.address(addressText)
    case None => None
    case Some(address) =>
      var starts, ends := Named(statements, STARTS), Named(statements, ENDS);
      var hardware := Named(statements, HARDWARE);
      if |starts| != 1 || |ends| != 1 || |hardware| != 1 then None
      else
        match (f.timestamp(starts[0], "starts"), f.timestamp(ends[0], "ends"))
        case (Some(from), Some(until)) =>
          if until <= from then None
          else
            (match f.hardware(hardware[0])
             case None => None
             case Some(mac) => Some(Lease(address, from, until, mac)))
        case _ => None
  }

  /** `s` is the one statement with this prefix. */
  ghost predicate Only(statements: seq<string>, prefix: string, s: string)
  {
    exists i :: OnlyAt(statements, prefix, s, i)
  }

  ghost predicate OnlyAt(statements: seq<string>, prefix: string, s: string, i: nat)
  {
    && i < |statements| && statements[i] == s
    && forall j :: 0 <= j < |statements| ==> (prefix <= statements[j] <==> j == i)
  }

  lemma {:induction false} NoneNamed(statements: seq<string>, prefix: string)
    ensures Named(statements, prefix) == [] <==>
            forall i :: 0 <= i < |statements| ==> !StartsWith(statements[i], prefix)
  {
    if statements != [] {
      NoneNamed(statements[1..], prefix);
      assert forall i :: 0 < i < |statements| ==> statements[i] == statements[1..][i - 1];
    }
  }

  lemma {:induction false} NamedOnly(statements: seq<string>, prefix: string, s: string)
    ensures Named(statements, prefix) == [s] <==> Only(statements, prefix, s)
  {
    if statements != [] {
      var rest := statements[1..];
      if StartsWith(statements[0], prefix) {
        NoneNamed(rest, prefix);
        OnlyFirst(statements, prefix, s);
        assert Named(statements, prefix) == [statements[0]] + Named(rest, prefix);
        assert Named(statements, prefix) == [s] <==> statements[0] == s && Named(rest, prefix) == [];
      } else {
        NamedOnly(rest, prefix, s);
        OnlyLater(statements, prefix, s);
        assert Named(statements, prefix) == Named(rest, prefix);
      }
    }
  }

  lemma OnlyFirst(statements: seq<string>, prefix: string, s: string)
    requires statements != [] && StartsWith(statements[0], prefix)
    ensures Only(statements, prefix, s) <==>
            statements[0] == s && forall i :: 0 <= i < |statements[1..]| ==> !StartsWith(statements[1..][i], prefix)
  {
    if i: nat :| OnlyAt(statements, prefix, s, i) {
      assert i == 0;
    }
    if statements[0] == s && forall i :: 0 <= i < |statements[1..]| ==> !StartsWith(statements[1..][i], prefix) {
      assert forall j :: 0 < j < |statements| ==> statements[j] == statements[1..][j - 1];
      assert OnlyAt(statements, prefix, s, 0);
    }
  }

  lemma OnlyLater(statements: seq<string>, prefix: string, s: string)
    requires statements != [] && !StartsWith(statements[0], prefix)
    ensures Only(statements, prefix, s) <==> Only(statements[1..], prefix, s)
  {
    var rest := statements[1..];
    if i: nat :| OnlyAt(statements, prefix, s, i) {
      assert i > 0 && OnlyAt(rest, prefix, s, i - 1);
    }
    if i: nat :| OnlyAt(rest, prefix, s, i) {
      assert forall j :: 0 < j < |statements| ==> statements[j] == rest[j - 1];
      assert OnlyAt(statements, prefix, s, i + 1);
    }
  }

  /** `l` is what the one statement of each kind says, and it ends after it starts. */
  ghost predicate Declares(f: Formats, addressText: string, statements: seq<string>, l: Lease, s: string, e: string,
      h: string)
  {
    && Only(statements, "starts ", s) && Only(statements, "ends ", e) && Only(statements, "hardware ", h)
    && f.address(addressText) == Some(l.address)
    && f.timestamp(s, "starts") == Some(l.starts) && f.timestamp(e, "ends") == Some(l.ends)
    && f.hardware(h) == Some(l.mac) && l.starts < l.ends
  }

  /** A record gives a lease exactly when each kind of statement occurs once and they declare that lease. */
  lemma BuildsExactly(f: Formats, addressText: string, statements: seq<string>, l: Lease)
    ensures BuildLease(f, addressText, statements) == Some(l) <==>
            exists s, e, h :: Declares(f, addressText, statements, l, s, e, h)
  {
    var starts, ends, hardware := Named(statements, STARTS), Named(statements, ENDS), Named(statements, HARDWARE);
    if BuildLease(f, addressText, statements) == Some(l) {
      NamedOnly(statements, STARTS, starts[0]);
      NamedOnly(statements, ENDS, ends[0]);
      NamedOnly(statements, HARDWARE, hardware[0]);
      assert Declares(f, addressText, statements, l, starts[0], ends[0], hardware[0]);
    }
    if s, e, h :| Declares(f, addressText, statements, l, s, e, h) {
      NamedOnly(statements, STARTS, s);
      NamedOnly(statements, ENDS, e);
      NamedOnly(statements, HARDWARE, h);
    }
  }

  /** Where the parser stands: the open record's address and statements, and the records so far. */
  datatype Parser = Parser(active: Option<string>, statements: seq<string>, records: seq<Lease>)

  const START := Parser(None, [], [])

  predicate EndsStatement(line: string) { line != "" && line[|line| - 1] == ';' }

  predicate HasBrace(line: string) { '{' in line || '}' in line }

  /** One line that is not blank; none for an error. */
  function ParseLine(p: Parser, line: string, f: Formats): Option<Parser>
  {
    if p.active.None? then
      match f.header(line)
      case Some(address) => Some(p.(active := Some(address), statements := []))
      case None => if !EndsStatement(line) || HasBrace(line) then None else Some(p)
    else if line == "}" then
      match BuildLease(f, p.active.value, p.statements)
      case None => None
      case Some(r) => Some(Parser(None, [], p.records + [r]))
    else if HasBrace(line) || !EndsStatement(line) then None
    else Some(p.(statements := p.statements + [line]))
  }

  function ParseRaw(p: Parser, raw: string, f: Formats): Option<Parser>
  {
    match StripComment(raw)
    case None => None
    case Some(line) => if line == "" then Some(p) else ParseLine(p, line, f)
  }

  function ParseFrom(p: Parser, lines: seq<string>, f: Formats): Option<Parser>
    decreases |lines|
  {
    if lines == [] then Some(p)
    else
      match ParseRaw(p, lines[0], f)
      case None => None
      case Some(q) => ParseFrom(q, lines[1..], f)
  }

  function Finish(p: Parser): Option<seq<Lease>>
  {
    if p.active.Some? || p.records == [] then None else Some(p.records)
  }

  function ParseLeases(lines: seq<string>, f: Formats): Option<seq<Lease>>
  {
    match ParseFrom(START, lines, f)
    case None => None
    case Some(p) => Finish(p)
  }

  method ParseLeaseLines(lines: seq<string>, f: Formats) returns (r: Option<seq<Lease>>)
    ensures r == ParseLeases(lines, f)
  {
    var records: seq<Lease> := [];
    var active: Option<string> := None;
    var statements: seq<string> := [];
    var i := 0;
    while i < |lines|
      invariant 0 <= i <= |lines|
      invariant ParseFrom(START, lines, f) == ParseFrom(Parser(active, statements, records), lines[i..], f)
    {
      var stripped := StripLeaseComment(lines[i]);
      assert lines[i..][1..] == lines[i + 1..];
      i := i + 1;
      if stripped.None? {
        return None;
      }
      var line := stripped.value;
      if line == "" {
        continue;
      }
      if active.None? {
        var header := f.header(line);
        if header.Some? {
          active, statements := header, [];
        } else if !EndsStatement(line) || HasBrace(line) {
          return None;
        }
        continue;
      }
      if line == "}" {
        var lease := BuildLease(f, active.value, statements);
        if lease.None? {
          return None;
        }
        records, active, statements := records + [lease.value], None, [];
      } else if HasBrace(line) || !EndsStatement(line) {
        return None;
      } else {
        statements := statements + [line];
      }
    }
    r := if active.Some? || records == [] then None else Some(records);
  }

  // ---- What a lease file means ----

  /** A file in the large: complete records, and statements outside any record. */
  datatype Item = Ignored(statement: string) | Record(header: string, statements: seq<string>, lease: Lease)

  ghost predicate Statement(line: string)
  {
    line != "" && line[|line| - 1] == ';' && '{' !in line && '}' !in line
  }

  ghost predicate WellFormed(item: Item, f: Formats)
  {
    match item
    case Ignored(statement) => Statement(statement) && f.header(statement).None?
    case Record(header, statements, lease) =>
      && header != "" && f.header(header).Some? && (forall i :: 0 <= i < |statements| ==> Statement(statements[i]))
      && BuildLease(f, f.header(header).value, statements) == Some(lease)
  }

  function Lines(item: Item): seq<string>
  {
    match item
    case Ignored(statement) => [statement]
    case Record(header, statements, _) => [header] + statements + ["}"]
  }

  function AllLines(items: seq<Item>): seq<string>
  {
    if items == [] then [] else AllLines(items[..|items| - 1]) + Lines(items[|items| - 1])
  }

  function Leases(items: seq<Item>): seq<Lease>
  {
    if items == [] then []
    else Leases(items[..|items| - 1]) + (match items[|items| - 1] case Ignored(_) => [] case Record(_, _, r) => [r])
  }

  /** The lines that say something: each without its comment, the blank ones dropped. */
  function Content(lines: seq<string>): Option<seq<string>>
  {
    if lines == [] then Some([])
    else
      match (Content(lines[..|lines| - 1]), StripComment(lines[|lines| - 1]))
      case (Some(before), Some(line)) => Some(if line == "" then before else before + [line])
      case _ => None
  }

  lemma {:induction false} ParseSnoc(p: Parser, lines: seq<string>, line: string, f: Formats)
    ensures ParseFrom(p, lines + [line], f) ==
            match ParseFrom(p, lines, f) case None => None case Some(q) => ParseRaw(q, line, f)
    decreases |lines|
  {
    if lines == [] {
      assert (lines + [line])[0] == line;
    } else {
      assert (lines + [line])[1..] == lines[1..] + [line];
      match ParseRaw(p, lines[0], f)
      case None =>
      case Some(q) => ParseSnoc(q, lines[1..], line, f);
    }
  }

  /** The parser stands after `items` and, inside a record, after its first lines. */
  ghost predicate Read(p: Parser, items: seq<Item>, header: string, content: seq<string>, f: Formats)
  {
    && (forall i :: 0 <= i < |items| ==> WellFormed(items[i], f))
    && p.records == Leases(items)
    && if p.active.None? then content == AllLines(items)
       else
         && header != "" && f.header(header) == p.active
         && (forall i :: 0 <= i < |p.statements| ==> Statement(p.statements[i]))
         && content == AllLines(items) + ([header] + p.statements)
  }

  lemma ReadOutside(p: Parser, line: string, items: seq<Item>, header: string, content: seq<string>, f: Formats)
    returns (items': seq<Item>, header': string)
    requires Read(p, items, header, content, f) && line != "" && p.active.None? && ParseLine(p, line, f).Some?
    ensures Read(ParseLine(p, line, f).value, items', header', content + [line], f)
  {
    items', header' := items, line;
    if f.header(line).None? {
      items' := items + [Ignored(line)];
    }
  }

  lemma ReadInside(p: Parser, line: string, items: seq<Item>, header: string, content: seq<string>, f: Formats)
    returns (items': seq<Item>)
    requires Read(p, items, header, content, f) && p.active.Some? && ParseLine(p, line, f).Some?
    ensures Read(ParseLine(p, line, f).value, items', header, content + [line], f)
  {
    items' := items;
    if line == "}" {
      var item := Record(header, p.statements, BuildLease(f, p.active.value, p.statements).value);
      items' := items + [item];
    }
  }

  /** What was read so far is a sequence of items, perhaps with an unfinished record. */
  lemma {:induction false} ParsedIsRead(lines: seq<string>, f: Formats)
    returns (items: seq<Item>, header: string)
    requires ParseFrom(START, lines, f).Some?
    ensures Content(lines).Some? && Read(ParseFrom(START, lines, f).value, items, header, Content(lines).value, f)
  {
    if lines == [] {
      items, header := [], "";
    } else {
      var before, raw := lines[..|lines| - 1], lines[|lines| - 1];
      assert lines == before + [raw];
      ParseSnoc(START, before, raw, f);
      items, header := ParsedIsRead(before, f);
      var p, line := ParseFrom(START, before, f).value, StripComment(raw).value;
      if line != "" {
        if p.active.None? {
          items, header := ReadOutside(p, line, items, header, Content(before).value, f);
        } else {
          items := ReadInside(p, line, items, header, Content(before).value, f);
        }
      }
    }
  }

  /** Feeding lines that are already stripped. */
  function Feed(p: Parser, content: seq<string>, f: Formats): Option<Parser>
  {
    if content == [] then Some(p)
    else
      match Feed(p, content[..|content| - 1], f)
      case None => None
      case Some(q) => ParseLine(q, content[|content| - 1], f)
  }

  lemma {:induction false} ParseIsFeed(lines: seq<string>, f: Formats)
    requires Content(lines).Some?
    ensures ParseFrom(START, lines, f) == Feed(START, Content(lines).value, f)
  {
    if lines != [] {
      var before, raw := lines[..|lines| - 1], lines[|lines| - 1];
      assert lines == before + [raw];
      ParseIsFeed(before, f);
      ParseSnoc(START, before, raw, f);
      var line, c := StripComment(raw).value, Content(before).value;
      assert (c + [line])[..|c|] == c;
    }
  }

  lemma {:induction false} FeedAppend(p: Parser, a: seq<string>, b: seq<string>, f: Formats)
    requires Feed(p, a, f).Some?
    ensures Feed(p, a + b, f) == Feed(Feed(p, a, f).value, b, f)
    decreases |b|
  {
    if b == [] {
      assert a + b == a;
    } else {
      var b' := b[..|b| - 1];
      assert (a + b)[..|a + b| - 1] == a + b';
      assert (a + b)[|a + b| - 1] == b[|b| - 1];
      FeedAppend(p, a, b', f);
    }
  }

  lemma {:induction false} FeedStatements(p: Parser, statements: seq<string>, f: Formats)
    requires p.active.Some? && forall i :: 0 <= i < |statements| ==> Statement(statements[i])
    ensures Feed(p, statements, f) == Some(p.(statements := p.statements + statements))
  {
    if statements != [] {
      var before, last := statements[..|statements| - 1], statements[|statements| - 1];
      FeedStatements(p, before, f);
      assert statements == before + [last] && Statement(last) && last != "}";
      assert p.statements + statements == (p.statements + before) + [last];
    } else {
      assert p.statements + [] == p.statements;
    }
  }

  ghost predicate Outside(p: Parser, records: seq<Lease>) { p.active.None? && p.records == records }

  lemma FeedItem(p: Parser, item: Item, f: Formats)
    requires p.active.None? && WellFormed(item, f)
    ensures var q := Feed(p, Lines(item), f);
            q.Some? && Outside(q.value, p.records + match item case Ignored(_) => [] case Record(_, _, r) => [r])
  {
    match item
    case Ignored(statement) =>
      assert p.records + [] == p.records;
    case Record(header, statements, lease) =>
      var q := ParseLine(p, header, f).value;
      FeedAppend(p, [header], statements, f);
      FeedStatements(q, statements, f);
      assert [] + statements == statements;
      FeedAppend(p, [header] + statements, ["}"], f);
  }

  lemma {:induction false} FeedItems(items: seq<Item>, f: Formats)
    requires forall i :: 0 <= i < |items| ==> WellFormed(items[i], f)
    ensures Feed(START, AllLines(items), f).Some? && Outside(Feed(START, AllLines(items), f).value, Leases(items))
  {
    if items != [] {
      var before, last := items[..|items| - 1], items[|items| - 1];
      FeedItems(before, f);
      FeedItem(Feed(START, AllLines(before), f).value, last, f);
      FeedAppend(START, AllLines(before), Lines(last), f);
    }
  }

  ghost predicate Describes(items: seq<Item>, lines: seq<string>, records: seq<Lease>, f: Formats)
  {
    && (forall i :: 0 <= i < |items| ==> WellFormed(items[i], f))
    && Content(lines) == Some(AllLines(items)) && Leases(items) == records && records != []
  }

  /**
   * Parsing returns `records` exactly when the file is, but for comments and blank lines,
   * a sequence of complete records and outside statements holding those leases in order.
   */
  lemma ParsesExactly(lines: seq<string>, records: seq<Lease>, f: Formats)
    ensures ParseLeases(lines, f) == Some(records) <==> exists items :: Describes(items, lines, records, f)
  {
    if ParseLeases(lines, f) == Some(records) {
      var items, header := ParsedIsRead(lines, f);
      assert Describes(items, lines, records, f);
    }
    if items :| Describes(items, lines, records, f) {
      FeedItems(items, f);
      ParseIsFeed(lines, f);
    }
  }

  /** `b` is `a` with a comment, perhaps after blanks, or `a` itself. */
  ghost predicate Commented(a: string, b: string)
  {
    a == b || exists blanks, comment :: AllSpace(blanks) && b == a + blanks + "#" + comment
  }

  lemma {:induction false} CommentedParse(p: Parser, a: seq<string>, b: seq<string>, f: Formats)
    requires |a| == |b| && forall i :: 0 <= i < |a| ==> StripComment(a[i]).Some? && Commented(a[i], b[i])
    ensures ParseFrom(p, a, f) == ParseFrom(p, b, f)
    decreases |a|
  {
    if a != [] {
      if a[0] != b[0] {
        var blanks, comment :| AllSpace(blanks) && b[0] == a[0] + blanks + "#" + comment;
        CommentIgnored(a[0], blanks, comment);
      }
      match ParseRaw(p, a[0], f)
      case None =>
      case Some(q) => CommentedParse(q, a[1..], b[1..], f);
    }
  }

  /** Comments after closed quotes change nothing that is parsed. */
  lemma CommentsNeverMatter(a: seq<string>, b: seq<string>, f: Formats)
    requires |a| == |b| && forall i :: 0 <= i < |a| ==> StripComment(a[i]).Some? && Commented(a[i], b[i])
    ensures ParseLeases(a, f) == ParseLeases(b, f)
  {
    CommentedParse(START, a, b, f);
  }

  // ---- Selection ----

  /** The dictionary update of one record: a new value for a known address, at its old place. */
  function Put(current: seq<Lease>, r: Lease): seq<Lease>
  {
    if current == [] then [r]
    else if current[0].address == r.address then [r] + current[1..]
    else [current[0]] + Put(current[1..], r)
  }

  function Current(records: seq<Lease>): seq<Lease>
  {
    if records == [] then [] else Put(Current(records[..|records| - 1]), records[|records| - 1])
  }

  /** The last declaration of an address. */
  function LastFor(records: seq<Lease>, address: nat): Option<Lease>
  {
    if records == [] then None
    else if records[|records| - 1].address == address then Some(records[|records| - 1])
    else LastFor(records[..|records| - 1], address)
  }

  predicate ValidNetwork(n: Network) { n.prefix == 24 && n.address % 256 == 0 }

  predicate Eligible(r: Lease, mac: string, n: Network, now: int)
  {
    && r.mac == mac
    && n.address <= r.address < n.address + 256 && r.address != n.address && r.address != n.address + 255
    && r.starts <= now < r.ends
  }

  /** Only a network of 256 addresses that starts at a multiple of 256 is taken. */
  lemma NetworkExactly(n: Network)
    ensures ValidNetwork(n) <==> exists high: nat :: n == Network(256 * high, 24)
  {
    if ValidNetwork(n) {
      assert n == Network(256 * (n.address / 256), 24);
    }
  }

  /** The adapter's leases that run now, for any host of the network but its first and its last. */
  lemma EligibleExactly(r: Lease, mac: string, n: Network, now: int)
    requires ValidNetwork(n)
    ensures Eligible(r, mac, n, now) <==>
            && r == Lease(r.address, r.starts, r.ends, mac) && r.starts <= now && now < r.ends
            && r.address / 256 == n.address / 256 && 1 <= r.address % 256 <= 254
  {
  }

  function EligibleLeases(current: seq<Lease>, mac: string, n: Network, now: int): seq<Lease>
  {
    if current == [] then []
    else (if Eligible(current[0], mac, n, now) then [current[0]] else []) + EligibleLeases(current[1..], mac, n, now)
  }

  /** The sort key `(starts, ends)`. */
  predicate AtLeast(a: Lease, b: Lease) { a.starts > b.starts || (a.starts == b.starts && a.ends >= b.ends) }

  function InsertSorted(r: Lease, sorted: seq<Lease>): (s: seq<Lease>)
    ensures multiset(s) == multiset(sorted) + multiset{r}
  {
    if sorted == [] || AtLeast(r, sorted[0]) then
      [r] + sorted
    else
      assert sorted == [sorted[0]] + sorted[1..];
      [sorted[0]] + InsertSorted(r, sorted[1..])
  }

  /** Newest first; leases of equal keys keep their order. */
  function SortNewestFirst(leases: seq<Lease>): (s: seq<Lease>)
    ensures multiset(s) == multiset(leases)
  {
    if leases == [] then []
    else
      assert leases == [leases[0]] + leases[1..];
      InsertSorted(leases[0], SortNewestFirst(leases[1..]))
  }

  function TiedAddresses(ordered: seq<Lease>, starts: int): set<nat>
  {
    set r | r in ordered && r.starts == starts :: r.address
  }

  function SelectNewest(records: seq<Lease>, mac: string, n: Network, now: int): Option<nat>
  {
    if !ValidNetwork(n) then None
    else
      var eligible := EligibleLeases(Current(records), mac, n, now);
      if eligible == [] then None
      else
        var ordered := SortNewestFirst(eligible);
        if |TiedAddresses(ordered, ordered[0].starts)| != 1 then None else Some(ordered[0].address)
  }

  // ---- What is selected ----

  predicate OneEach(leases: seq<Lease>)
  {
    forall i, j :: 0 <= i < j < |leases| ==> leases[i].address != leases[j].address
  }

  lemma {:induction false} PutMembers(current: seq<Lease>, r: Lease)
    requires OneEach(current)
    ensures OneEach(Put(current, r))
    ensures forall x :: x in Put(current, r) <==> x == r || (x in current && x.address != r.address)
  {
    if current != [] {
      var c, rest := current[0], current[1..];
      assert current == [c] + rest;
      if c.address != r.address {
        PutMembers(rest, r);
        assert forall x :: x in rest ==> x.address != c.address;
        var put := Put(rest, r);
        forall i | 0 <= i < |put|
          ensures put[i].address != c.address
        {
          assert put[i] in put;
        }
      } else {
        assert forall x :: x in rest ==> x.address != r.address;
      }
    }
  }

  /** The dictionary holds exactly the last declaration of each address. */
  lemma {:induction false} CurrentIsLast(records: seq<Lease>)
    ensures OneEach(Current(records))
    ensures forall x :: x in Current(records) <==> LastFor(records, x.address) == Some(x)
  {
    if records != [] {
      CurrentIsLast(records[..|records| - 1]);
      PutMembers(Current(records[..|records| - 1]), records[|records| - 1]);
    }
  }

  lemma {:induction false} EligibleMembers(current: seq<Lease>, mac: string, n: Network, now: int)
    ensures forall x :: x in EligibleLeases(current, mac, n, now) <==> x in current && Eligible(x, mac, n, now)
  {
    if current != [] {
      EligibleMembers(current[1..], mac, n, now);
      assert forall x :: x in current <==> x == current[0] || x in current[1..];
    }
  }

  predicate NewestFirst(s: seq<Lease>)
  {
    forall i, j :: 0 <= i < j < |s| ==> AtLeast(s[i], s[j])
  }

  lemma {:induction false} InsertKeepsOrder(r: Lease, sorted: seq<Lease>)
    requires NewestFirst(sorted)
    ensures NewestFirst(InsertSorted(r, sorted))
  {
    if sorted == [] {
    } else if AtLeast(r, sorted[0]) {
      forall j | 0 <= j < |sorted|
        ensures AtLeast(r, sorted[j])
      {
        assert j == 0 || AtLeast(sorted[0], sorted[j]);
      }
    } else {
      var rest := InsertSorted(r, sorted[1..]);
      InsertKeepsOrder(r, sorted[1..]);
      forall i | 0 <= i < |rest|
        ensures AtLeast(sorted[0], rest[i])
      {
        assert rest[i] in multiset(rest);
        if rest[i] != r {
          assert rest[i] in multiset(sorted[1..]);
        }
      }
    }
  }

  lemma {:induction false} SortIsOrdered(leases: seq<Lease>)
    ensures NewestFirst(SortNewestFirst(leases))
    ensures forall x :: x in SortNewestFirst(leases) <==> x in leases
  {
    var s := SortNewestFirst(leases);
    if leases != [] {
      SortIsOrdered(leases[1..]);
      InsertKeepsOrder(leases[0], SortNewestFirst(leases[1..]));
    }
    forall x
      ensures x in s <==> x in leases
    {
      assert x in s <==> x in multiset(s);
      assert x in leases <==> x in multiset(leases);
    }
  }

  /** `address` was last declared with an eligible lease. */
  predicate Candidate(records: seq<Lease>, mac: string, n: Network, now: int, address: nat)
  {
    LastFor(records, address).Some? && Eligible(LastFor(records, address).value, mac, n, now)
  }

  ghost predicate StrictlyNewest(records: seq<Lease>, mac: string, n: Network, now: int, address: nat)
  {
    && Candidate(records, mac, n, now, address)
    && forall other :: other != address && Candidate(records, mac, n, now, other) ==>
         LastFor(records, other).value.starts < LastFor(records, address).value.starts
  }

  lemma {:induction false} LastForAddress(records: seq<Lease>, address: nat)
    ensures LastFor(records, address).Some? ==> LastFor(records, address).value.address == address
  {
    if records != [] {
      LastForAddress(records[..|records| - 1], address);
    }
  }

  lemma SingleElement(s: set<nat>, a: nat)
    requires a in s
    ensures |s| == 1 <==> forall x :: x in s ==> x == a
  {
    if forall x :: x in s ==> x == a {
      assert s == {a};
    }
    if |s| == 1 {
      assert |s - {a}| == 0;
      forall x | x in s
        ensures x == a
      {
        assert x != a ==> x in s - {a};
      }
    }
  }

  /** The eligible leases, newest first, are the candidates' last declarations. */
  lemma OrderedCandidates(records: seq<Lease>, mac: string, n: Network, now: int)
    ensures var ordered := SortNewestFirst(EligibleLeases(Current(records), mac, n, now));
            && (forall x :: x in ordered <==> LastFor(records, x.address) == Some(x) && Eligible(x, mac, n, now))
            && (forall x :: x in ordered ==> ordered[0].starts >= x.starts)
            && (EligibleLeases(Current(records), mac, n, now) == [] <==> ordered == [])
  {
    CurrentIsLast(records);
    EligibleMembers(Current(records), mac, n, now);
    SortIsOrdered(EligibleLeases(Current(records), mac, n, now));
  }

  /**
   * An address is returned exactly when its last declaration is eligible and starts
   * strictly later than every other address's eligible last declaration.
   */
  lemma SelectedExactly(records: seq<Lease>, mac: string, n: Network, now: int, address: nat)
    requires ValidNetwork(n)
    ensures SelectNewest(records, mac, n, now) == Some(address) <==> StrictlyNewest(records, mac, n, now, address)
  {
    OrderedCandidates(records, mac, n, now);
    var ordered := SortNewestFirst(EligibleLeases(Current(records), mac, n, now));
    LastForAddress(records, address);
    assert Candidate(records, mac, n, now, address) ==> LastFor(records, address).value in ordered;
    if ordered != [] {
      var first := ordered[0];
      var tied := TiedAddresses(ordered, first.starts);
      assert first in ordered && first.address in tied;
      SingleElement(tied, first.address);
      if |tied| == 1 && address == first.address {
        forall other | other != address && Candidate(records, mac, n, now, other)
          ensures LastFor(records, other).value.starts < first.starts
        {
          LastForAddress(records, other);
          var r := LastFor(records, other).value;
          assert r in ordered && (r.starts == first.starts ==> r.address in tied);
        }
      }
      if StrictlyNewest(records, mac, n, now, address) {
        assert Candidate(records, mac, n, now, first.address);
        forall x | x in tied
          ensures x == first.address
        {
          var r :| r in ordered && r.starts == first.starts && r.address == x;
          assert Candidate(records, mac, n, now, x);
        }
      }
    }
  }

  lemma SameSelection(a: seq<Lease>, b: seq<Lease>, mac: string, n: Network, now: int)
    requires forall address: nat :: LastFor(a, address) == LastFor(b, address)
    requires SelectNewest(a, mac, n, now).Some?
    ensures SelectNewest(b, mac, n, now) == SelectNewest(a, mac, n, now)
  {
    var address := SelectNewest(a, mac, n, now).value;
    SelectedExactly(a, mac, n, now, address);
    SelectedExactly(b, mac, n, now, address);
  }

  /** Only the last declaration of each address matters, not their order nor what they replaced. */
  lemma OnlyLastDeclarationsMatter(a: seq<Lease>, b: seq<Lease>, mac: string, n: Network, now: int)
    requires forall address: nat :: LastFor(a, address) == LastFor(b, address)
    ensures SelectNewest(a, mac, n, now) == SelectNewest(b, mac, n, now)
  {
    if SelectNewest(a, mac, n, now).Some? {
      SameSelection(a, b, mac, n, now);
    } else if SelectNewest(b, mac, n, now).Some? {
      SameSelection(b, a, mac, n, now);
    }
  }
}
