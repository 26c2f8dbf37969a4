/**
 * The timing extractor of src/timings/parse.rs: reads the text of an RSpec
 * JUnit report line by line, picks out `key="value"` attributes with the
 * pattern `\s*(\w+)="([^"]+)"\s*`, and sums the `time` of every line that
 * also names a `file` into one total per file path.
 *
 * The pattern is modelled by a hand-written scanner (MatchAt, Captures);
 * the float parser is the parameter `parseTime`, a partial function from
 * the attribute text to a number. AccumulateFrom is the functional
 * specification of the whole pass; ParseRspecOutput is the loop as written,
 * proved against it.
 */
module Parse {
  import opened Timings

  /** A `time` attribute whose text is not a number; it aborts the whole pass. */
  datatype ParseError = ParseError(value: string)

  // ---------------------------------------------------------------------
  // Character classes of the pattern
  // ---------------------------------------------------------------------

  /** `\w`, restricted to ASCII: letters, digits and underscore. */
  predicate IsWordChar(c: char)
  {
    ('a' <= c <= 'z') || ('A' <= c <= 'Z') || ('0' <= c <= '9') || c == '_'
  }

  /** `\s`: the characters with the Unicode White_Space property. */
  predicate IsSpace(c: char)
  {
    c == ' ' || ('\t' <= c <= '\r') || c == '\U{0085}' || c == '\U{00A0}' || c == '\U{1680}'
    || ('\U{2000}' <= c <= '\U{200A}') || c == '\U{2028}' || c == '\U{2029}'
    || c == '\U{202F}' || c == '\U{205F}' || c == '\U{3000}'
  }

  /**
   * The character classes the scanner runs over: `\s`, `\w`, `[^"]` (the
   * value group) and anything but a line break.
   */
  datatype CharClass = Space | Word | NotQuote | NotNewline

  predicate In(c: char, cls: CharClass)
  {
    match cls
    case Space => IsSpace(c)
    case Word => IsWordChar(c)
    case NotQuote => c != '"'
    case NotNewline => c != '\n'
  }

  predicate AllIn(s: string, cls: CharClass)
  {
    forall k :: 0 <= k < |s| ==> In(s[k], cls)
  }

  /** The end of the longest run of characters in class `cls` starting at `i`. */
  function SpanEnd(s: string, i: nat, cls: CharClass): (j: nat)
    requires i <= |s|
    ensures i <= j <= |s|
    decreases |s| - i
  {
    if i == |s| || !In(s[i], cls) then i else SpanEnd(s, i + 1, cls)
  }

  /** The run reaches at least as far as any stretch of the class from `i`. */
  lemma {:induction false} SpanEndAtLeast(s: string, i: nat, j: nat, cls: CharClass)
    requires i <= j <= |s|
    requires forall k :: i <= k < j ==> In(s[k], cls)
    ensures SpanEnd(s, i, cls) >= j
    decreases j - i
  {
    if i < j {
      SpanEndAtLeast(s, i + 1, j, cls);
    }
  }

  /** The run is in the class, and the character that ends it is not. */
  lemma {:induction false} SpanEndRun(s: string, i: nat, cls: CharClass)
    requires i <= |s|
    ensures forall k :: i <= k < SpanEnd(s, i, cls) ==> In(s[k], cls)
    ensures SpanEnd(s, i, cls) < |s| ==> !In(s[SpanEnd(s, i, cls)], cls)
    decreases |s| - i
  {
    if i < |s| && In(s[i], cls) {
      SpanEndRun(s, i + 1, cls);
    }
  }

  lemma {:induction false} SpanEndIs(s: string, i: nat, j: nat, cls: CharClass)
    requires i <= j <= |s|
    requires forall k :: i <= k < j ==> In(s[k], cls)
    requires j < |s| ==> !In(s[j], cls)
    ensures SpanEnd(s, i, cls) == j
    decreases j - i
  {
    if i < j {
      SpanEndIs(s, i + 1, j, cls);
    }
  }

  // ---------------------------------------------------------------------
  // One match of the pattern
  // ---------------------------------------------------------------------

  /** A match: the key starts at `keyStart`; the match ends (after trailing blanks) at `end`. */
  datatype Match = Match(keyStart: nat, key: string, value: string, end: nat)

  /** A capture pair of the pattern: group 1 and group 2. */
  datatype Capture = Capture(key: string, value: string)

  /** A text the value group can capture: non-empty and free of `"`. */
  predicate ValidValue(v: string)
  {
    |v| > 0 && AllIn(v, NotQuote)
  }

  /** A pair the pattern can capture: a non-empty word and a value the value group can capture. */
  predicate ValidCapture(c: Capture)
  {
    |c.key| > 0 && AllIn(c.key, Word) && ValidValue(c.value)
  }

  /**
   * The regular language of the pattern at `p`, without saying which
   * match the engine prefers: blanks on [p, q), a word on [q, r), `="` at r,
   * a quote-free non-empty value on [r + 2, v), `"` at v, blanks on [v + 1, e).
   */
  ghost predicate PatternAt(s: string, p: nat, q: nat, r: nat, v: nat, e: nat)
  {
    && p <= q < r && r + 2 < v < e <= |s|
    && (forall k :: p <= k < q ==> IsSpace(s[k]))
    && (forall k :: q <= k < r ==> IsWordChar(s[k]))
    && s[r] == '=' && s[r + 1] == '"'
    && (forall k :: r + 2 <= k < v ==> In(s[k], NotQuote))
    && s[v] == '"'
    && (forall k :: v + 1 <= k < e ==> IsSpace(s[k]))
  }

  /**
   * The match the regex engine reports when it tries position `p`: each
   * repetition is greedy, and backing off one of them never helps because
   * the character after each run cannot start the next part of the pattern.
   */
  function MatchAt(s: string, p: nat): (r: Option<Match>)
    requires p <= |s|
    ensures r.Some? ==> p < r.value.end <= |s|
  {
    var q := SpanEnd(s, p, Space);
    var r := SpanEnd(s, q, Word);
    if r == q || r + 2 > |s| || s[r] != '=' || s[r + 1] != '"' then None
    else
      var v := SpanEnd(s, r + 2, NotQuote);
      if v == r + 2 || v == |s| then None
      else Some(Match(q, s[q..r], s[r + 2..v], SpanEnd(s, v + 1, Space)))
  }

  /** Every match MatchAt reports is a match of the pattern, with its captures. */
  lemma MatchAtSound(s: string, p: nat, m: Match)
    requires p <= |s| && MatchAt(s, p) == Some(m)
    ensures PatternAt(s, p, m.keyStart, m.keyStart + |m.key|, m.keyStart + |m.key| + 2 + |m.value|, m.end)
    ensures m.key == s[m.keyStart..m.keyStart + |m.key|]
    ensures m.value == s[m.keyStart + |m.key| + 2..m.keyStart + |m.key| + 2 + |m.value|]
  {
    var q := SpanEnd(s, p, Space);
    var r := SpanEnd(s, q, Word);
    var v := SpanEnd(s, r + 2, NotQuote);
    var e := SpanEnd(s, v + 1, Space);
    assert m == Match(q, s[q..r], s[r + 2..v], e);
    SpansArePattern(s, p, q, r, v, e);
  }

  /** Four consecutive maximal runs with `="` and `"` between them form a match of the pattern. */
  lemma SpansArePattern(s: string, p: nat, q: nat, r: nat, v: nat, e: nat)
    requires p <= |s| && q == SpanEnd(s, p, Space) && r == SpanEnd(s, q, Word)
    requires q < r && r + 2 < v < |s|
    requires s[r] == '=' && s[r + 1] == '"'
    requires v == SpanEnd(s, r + 2, NotQuote) && e == SpanEnd(s, v + 1, Space)
    ensures PatternAt(s, p, q, r, v, e)
  {
    SpanEndRun(s, p, Space);
    SpanEndRun(s, q, Word);
    SpanEndRun(s, r + 2, NotQuote);
    SpanEndRun(s, v + 1, Space);
    assert !In(s[v], NotQuote);
  }

  lemma SpaceIsNotWord(c: char)
    ensures !(IsSpace(c) && IsWordChar(c))
  {
  }

  /**
   * Whenever the pattern can match at `p` at all, MatchAt finds a match
   * there, and its two captures are the ones of that match.
   */
  lemma MatchAtComplete(s: string, p: nat, q: nat, r: nat, v: nat, e: nat)
    requires PatternAt(s, p, q, r, v, e)
    ensures MatchAt(s, p).Some?
    ensures MatchAt(s, p).value.key == s[q..r]
    ensures MatchAt(s, p).value.value == s[r + 2..v]
    ensures MatchAt(s, p).value.end >= e
  {
    SpaceIsNotWord(s[q]);
    SpanEndIs(s, p, q, Space);
    SpanEndIs(s, q, r, Word);
    SpanEndIs(s, r + 2, v, NotQuote);
    SpanEndAtLeast(s, v + 1, e, Space);
  }

  /**
   * All non-overlapping matches from `pos` on, leftmost first, as the
   * engine's `captures_iter` yields them.
   */
  function Captures(s: string, pos: nat): (caps: seq<Capture>)
    requires pos <= |s|
    decreases |s| - pos
  {
    if pos == |s| then []
    else
      match MatchAt(s, pos)
      case Some(m) => [Capture(m.key, m.value)] + Captures(s, m.end)
      case None => Captures(s, pos + 1)
  }

  /** Every capture is a non-empty word and a non-empty quote-free value. */
  lemma {:induction false} CapturesValid(s: string, pos: nat)
    requires pos <= |s|
    ensures forall i :: 0 <= i < |Captures(s, pos)| ==> ValidCapture(Captures(s, pos)[i])
    decreases |s| - pos
  {
    if pos < |s| {
      match MatchAt(s, pos)
      case Some(m) =>
        MatchAtSound(s, pos, m);
        CapturesValid(s, m.end);
      case None =>
        CapturesValid(s, pos + 1);
    }
  }

  /** A blank at `p` changes nothing: the match tried at `p` is the one tried at `p + 1`. */
  lemma CapturesSkipSpace(s: string, p: nat)
    requires p < |s| && IsSpace(s[p])
    ensures Captures(s, p) == Captures(s, p + 1)
  {
    assert SpanEnd(s, p, Space) == SpanEnd(s, p + 1, Space);
    assert MatchAt(s, p) == MatchAt(s, p + 1);
  }

  lemma {:induction false} CapturesSkipSpaces(s: string, p: nat)
    requires p <= |s|
    ensures Captures(s, p) == Captures(s, SpanEnd(s, p, Space))
    decreases |s| - p
  {
    if p < |s| && IsSpace(s[p]) {
      CapturesSkipSpace(s, p);
      CapturesSkipSpaces(s, p + 1);
    }
  }

  /**
   * No match starts at `p` when there is no `=` on [p, j) and the run of
   * blanks and word characters from `p` cannot cross `j`.
   */
  lemma NoMatchBefore(s: string, p: nat, j: nat)
    requires p < j <= |s|
    requires forall k :: p <= k < j ==> s[k] != '='
    requires j < |s| ==> !IsSpace(s[j - 1]) && IsSpace(s[j])
    ensures MatchAt(s, p).None?
  {
    var q := SpanEnd(s, p, Space);
    var r := SpanEnd(s, q, Word);
    SpanEndRun(s, p, Space);
    SpanEndRun(s, q, Word);
    if j < |s| {
      SpaceIsNotWord(s[j]);
      assert r <= j;
    }
  }

  /** Positions [pos, j) contribute no capture under the conditions of NoMatchBefore. */
  lemma {:induction false} CapturesSkip(s: string, pos: nat, j: nat)
    requires pos <= j <= |s|
    requires forall k :: pos <= k < j ==> s[k] != '='
    requires pos < j < |s| ==> !IsSpace(s[j - 1]) && IsSpace(s[j])
    ensures Captures(s, pos) == Captures(s, j)
    decreases j - pos
  {
    if pos < j {
      NoMatchBefore(s, pos, j);
      CapturesSkip(s, pos + 1, j);
    }
  }

  /** The text has no `=`, so the pattern cannot match anywhere in it. */
  predicate NoEquals(s: string)
  {
    forall k :: 0 <= k < |s| ==> s[k] != '='
  }

  /** A stretch of text without `=` holds no capture. */
  lemma NoEqualsNoCaptures(s: string)
    requires NoEquals(s)
    ensures Captures(s, 0) == []
  {
    CapturesSkip(s, 0, |s|);
  }

  /** One attribute written out as ` key="value"`. */
  function Attribute(c: Capture): string
  {
    " " + c.key + "=\"" + c.value + "\""
  }

  /** The attributes `caps` written out one after the other. */
  function Attributes(caps: seq<Capture>): string
  {
    if caps == [] then [] else Attribute(caps[0]) + Attributes(caps[1..])
  }

  /** Where each part of a written-out attribute lies in the text. */
  lemma AttributeLayout(s: string, pos: nat, c: Capture)
    requires pos + |Attribute(c)| <= |s| && s[pos..pos + |Attribute(c)|] == Attribute(c)
    ensures s[pos] == ' '
    ensures s[pos + 1..pos + 1 + |c.key|] == c.key
    ensures s[pos + 1 + |c.key|] == '=' && s[pos + 2 + |c.key|] == '"'
    ensures s[pos + 3 + |c.key|..pos + 3 + |c.key| + |c.value|] == c.value
    ensures s[pos + 3 + |c.key| + |c.value|] == '"'
  {
    var a := Attribute(c);
    forall k | 0 <= k < |a| ensures s[pos + k] == a[k] {
      assert s[pos..pos + |a|][k] == s[pos + k];
    }
    assert a[1..1 + |c.key|] == c.key;
    assert a[3 + |c.key|..3 + |c.key| + |c.value|] == c.value;
    assert s[pos + 1..pos + 1 + |c.key|] == a[1..1 + |c.key|];
    assert s[pos + 3 + |c.key|..pos + 3 + |c.key| + |c.value|] == a[3 + |c.key|..3 + |c.key| + |c.value|];
  }

  /** A slice equal to a word of class `cls` is a run of that class. */
  lemma RunOf(s: string, i: nat, w: string, cls: CharClass)
    requires i + |w| <= |s| && s[i..i + |w|] == w && AllIn(w, cls)
    ensures forall k :: i <= k < i + |w| ==> In(s[k], cls)
  {
    forall k | i <= k < i + |w| ensures In(s[k], cls) {
      assert s[k] == s[i..i + |w|][k - i];
    }
  }

  /** A blank, a word key, `="`, a quote-free value and `"`, laid out from `pos`, form one match. */
  lemma MatchLaidOut(s: string, pos: nat, key: string, value: string)
    requires |key| > 0 && AllIn(key, Word) && |value| > 0 && AllIn(value, NotQuote)
    requires pos + 4 + |key| + |value| <= |s|
    requires s[pos] == ' '
    requires s[pos + 1..pos + 1 + |key|] == key
    requires s[pos + 1 + |key|] == '=' && s[pos + 2 + |key|] == '"'
    requires s[pos + 3 + |key|..pos + 3 + |key| + |value|] == value
    requires s[pos + 3 + |key| + |value|] == '"'
    ensures MatchAt(s, pos) == Some(Match(pos + 1, key, value, SpanEnd(s, pos + 4 + |key| + |value|, Space)))
  {
    var r := pos + 1 + |key|;
    var v := r + 2 + |value|;
    RunOf(s, pos + 1, key, Word);
    RunOf(s, r + 2, value, NotQuote);
    SpaceIsNotWord(s[pos + 1]);
    SpanEndIs(s, pos, pos + 1, Space);
    SpanEndIs(s, pos + 1, r, Word);
    SpanEndIs(s, r + 2, v, NotQuote);
  }

  /** A written-out attribute is matched whole, from its leading blank, with its own key and value. */
  lemma MatchAttribute(s: string, pos: nat, c: Capture)
    requires ValidCapture(c)
    requires pos + |Attribute(c)| <= |s| && s[pos..pos + |Attribute(c)|] == Attribute(c)
    ensures MatchAt(s, pos) == Some(Match(pos + 1, c.key, c.value, SpanEnd(s, pos + |Attribute(c)|, Space)))
  {
    assert |Attribute(c)| == 4 + |c.key| + |c.value|;
    AttributeLayout(s, pos, c);
    MatchLaidOut(s, pos, c.key, c.value);
  }

  /** A slice that is the concatenation of two parts has each part in its place. */
  lemma SliceParts<T>(s: seq<T>, i: nat, a: seq<T>, b: seq<T>)
    requires i + |a| + |b| <= |s| && s[i..i + |a| + |b|] == a + b
    ensures s[i..i + |a|] == a && s[i + |a|..i + |a| + |b|] == b
  {
    var whole := s[i..i + |a| + |b|];
    assert s[i..i + |a|] == whole[..|a|];
    assert s[i + |a|..i + |a| + |b|] == whole[|a|..];
  }

  /**
   * Scanning written-out attributes gives back exactly those attributes,
   * when nothing after them contains `=`.
   */
  lemma {:induction false} CapturesOfAttributes(s: string, pos: nat, caps: seq<Capture>)
    requires forall i :: 0 <= i < |caps| ==> ValidCapture(caps[i])
    requires pos + |Attributes(caps)| <= |s| && s[pos..pos + |Attributes(caps)|] == Attributes(caps)
    requires forall k :: pos + |Attributes(caps)| <= k < |s| ==> s[k] != '='
    ensures Captures(s, pos) == caps
    decreases |caps|
  {
    if caps == [] {
      CapturesSkip(s, pos, |s|);
    } else {
      var c := caps[0];
      var a, rest := Attribute(c), Attributes(caps[1..]);
      var n := pos + |a|;
      var e := SpanEnd(s, n, Space);
      assert Attributes(caps) == a + rest;
      assert s[pos..n] == a && s[n..n + |rest|] == rest by {
        SliceParts(s, pos, a, rest);
      }
      assert MatchAt(s, pos) == Some(Match(pos + 1, c.key, c.value, e)) by {
        MatchAttribute(s, pos, c);
      }
      assert Captures(s, pos) == [c] + Captures(s, e);
      assert Captures(s, e) == caps[1..] by {
        CapturesSkipSpaces(s, n);
        CapturesOfAttributes(s, n, caps[1..]);
      }
      assert caps == [c] + caps[1..];
    }
  }

  /** Where the parts of `tag + Attributes(caps) + tail` lie. */
  lemma TagLineLayout(tag: string, caps: seq<Capture>, tail: string)
    requires |caps| > 0 && |tag| > 0 && !IsSpace(tag[|tag| - 1])
    requires NoEquals(tag) && NoEquals(tail)
    ensures var s, n := tag + Attributes(caps) + tail, |tag| + |Attributes(caps)|;
      && n <= |s| && s[|tag|..n] == Attributes(caps)
      && (forall k :: 0 <= k < |tag| ==> s[k] != '=')
      && (forall k :: n <= k < |s| ==> s[k] != '=')
      && !IsSpace(s[|tag| - 1]) && IsSpace(s[|tag|])
  {
    var attrs := Attributes(caps);
    var s := tag + attrs + tail;
    var n := |tag| + |attrs|;
    assert s[|tag|..n] == attrs;
    forall k | 0 <= k < |tag| ensures s[k] != '=' {
      assert s[k] == tag[k];
    }
    forall k | n <= k < |s| ensures s[k] != '=' {
      assert s[k] == tail[k - n];
    }
    assert s[|tag| - 1] == tag[|tag| - 1];
    assert attrs == Attribute(caps[0]) + Attributes(caps[1..]);
    assert s[|tag|] == attrs[0] == ' ';
  }

  /**
   * An element such as `<testcase k1="v1" k2="v2">...`: a tag name without
   * `=` ending in a non-blank, then attributes, then text without `=`.
   * Its captures are exactly the attributes, in order.
   */
  lemma TagLineCaptures(tag: string, caps: seq<Capture>, tail: string)
    requires |caps| > 0 && |tag| > 0 && !IsSpace(tag[|tag| - 1])
    requires NoEquals(tag) && NoEquals(tail)
    requires forall i :: 0 <= i < |caps| ==> ValidCapture(caps[i])
    ensures Captures(tag + Attributes(caps) + tail, 0) == caps
  {
    var s := tag + Attributes(caps) + tail;
    TagLineLayout(tag, caps, tail);
    CapturesSkip(s, 0, |tag|);
    CapturesOfAttributes(s, |tag|, caps);
  }

  // ---------------------------------------------------------------------
  // One line: the last `file` and the last `time`
  // ---------------------------------------------------------------------

  /** The attribute values remembered while a line's captures are read. */
  datatype LineState = LineState(file: Option<string>, time: Option<real>)

  /**
   * Reads captures in order: `file` replaces the path, `time` is parsed
   * (failing the call if it is not a number) and replaces the time, any
   * other key is skipped.
   */
  function ScanFrom(caps: seq<Capture>, st: LineState, parseTime: string -> Option<real>): Result<LineState, ParseError>
    decreases |caps|
  {
    if caps == [] then Success(st)
    else
      var c := caps[0];
      if c.key == "file" then ScanFrom(caps[1..], st.(file := Some(c.value)), parseTime)
      else if c.key == "time" then
        match parseTime(c.value)
        case None => Failure(ParseError(c.value))
        case Some(t) => ScanFrom(caps[1..], st.(time := Some(t)), parseTime)
      else ScanFrom(caps[1..], st, parseTime)
  }

  /** The value of the last capture with key `key`, read from the end. */
  function LastValue(caps: seq<Capture>, key: string): Option<string>
    decreases |caps|
  {
    if caps == [] then None
    else if caps[|caps| - 1].key == key then Some(caps[|caps| - 1].value)
    else LastValue(caps[..|caps| - 1], key)
  }

  lemma {:induction false} LastValueCons(c: Capture, rest: seq<Capture>, key: string)
    ensures LastValue([c] + rest, key)
         == if LastValue(rest, key).Some? then LastValue(rest, key)
            else if c.key == key then Some(c.value) else None
    decreases |rest|
  {
    var s := [c] + rest;
    if rest != [] {
      assert s[..|s| - 1] == [c] + rest[..|rest| - 1];
      LastValueCons(c, rest[..|rest| - 1], key);
    }
  }

  /** A `time` capture whose text does not parse. */
  ghost predicate BadTime(caps: seq<Capture>, parseTime: string -> Option<real>)
  {
    exists i :: 0 <= i < |caps| && caps[i].key == "time" && parseTime(caps[i].value).None?
  }

  /**
   * Scanning a line fails exactly when one of its `time` captures does not
   * parse, whether or not the line has a `file`.
   */
  lemma {:induction false} ScanFailsIff(caps: seq<Capture>, st: LineState, parseTime: string -> Option<real>)
    ensures ScanFrom(caps, st, parseTime).Failure? <==> BadTime(caps, parseTime)
    decreases |caps|
  {
    if caps != [] {
      var c := caps[0];
      var st' := if c.key == "file" then st.(file := Some(c.value))
                 else if c.key == "time" && parseTime(c.value).Some? then st.(time := parseTime(c.value))
                 else st;
      ScanFailsIff(caps[1..], st', parseTime);
      if BadTime(caps[1..], parseTime) {
        var i :| 0 <= i < |caps[1..]| && caps[1..][i].key == "time" && parseTime(caps[1..][i].value).None?;
        assert caps[i + 1] == caps[1..][i];
      }
      if BadTime(caps, parseTime) && !(c.key == "time" && parseTime(c.value).None?) {
        var i :| 0 <= i < |caps| && caps[i].key == "time" && parseTime(caps[i].value).None?;
        assert i > 0;
        assert caps[1..][i - 1] == caps[i];
      }
    }
  }

  /**
   * On success, the path is the last `file` value on the line and the time
   * is the parse of the last `time` value; earlier ones are overwritten.
   */
  lemma {:induction false} ScanKeepsLast(caps: seq<Capture>, st: LineState, parseTime: string -> Option<real>)
    requires ScanFrom(caps, st, parseTime).Success?
    ensures ScanFrom(caps, st, parseTime).value.file
         == if LastValue(caps, "file").Some? then LastValue(caps, "file") else st.file
    ensures ScanFrom(caps, st, parseTime).value.time
         == if LastValue(caps, "time").Some? then parseTime(LastValue(caps, "time").value) else st.time
    ensures LastValue(caps, "time").Some? ==> parseTime(LastValue(caps, "time").value).Some?
    decreases |caps|
  {
    if caps != [] {
      var c := caps[0];
      assert caps == [c] + caps[1..];
      LastValueCons(c, caps[1..], "file");
      LastValueCons(c, caps[1..], "time");
      var st' := if c.key == "file" then st.(file := Some(c.value))
                 else if c.key == "time" then st.(time := parseTime(c.value))
                 else st;
      ScanKeepsLast(caps[1..], st', parseTime);
    }
  }

  /**
   * What one line contributes: an error, nothing, or one (path, time)
   * increment when both a `file` and a `time` were matched on it.
   */
  function LineEntry(line: string, parseTime: string -> Option<real>): Entry
  {
    match ScanFrom(Captures(line, 0), LineState(None, None), parseTime)
    case Failure(e) => Failure(e)
    case Success(st) =>
      if st.file.Some? && st.time.Some? then Success(Some(FileTiming(st.file.value, st.time.value)))
      else Success(None)
  }

  /** A line fails exactly when one of its `time` captures does not parse. */
  lemma LineFailsIff(line: string, parseTime: string -> Option<real>)
    ensures LineEntry(line, parseTime).Failure? <==> BadTime(Captures(line, 0), parseTime)
  {
    ScanFailsIff(Captures(line, 0), LineState(None, None), parseTime);
  }

  /**
   * A line adds to the totals exactly when it has both attributes and all
   * its times parse; the increment is its last `file` and its last `time`.
   */
  lemma LineEntryIff(line: string, parseTime: string -> Option<real>)
    ensures LineEntry(line, parseTime).Success? && LineEntry(line, parseTime).value.Some? <==>
      && !BadTime(Captures(line, 0), parseTime)
      && LastValue(Captures(line, 0), "file").Some?
      && LastValue(Captures(line, 0), "time").Some?
    ensures LineEntry(line, parseTime).Success? && LineEntry(line, parseTime).value.Some? ==>
      && LineEntry(line, parseTime).value.value.file_path == LastValue(Captures(line, 0), "file").value
      && Some(LineEntry(line, parseTime).value.value.total_time) == parseTime(LastValue(Captures(line, 0), "time").value)
  {
    var caps := Captures(line, 0);
    ScanFailsIff(caps, LineState(None, None), parseTime);
    if !BadTime(caps, parseTime) {
      ScanKeepsLast(caps, LineState(None, None), parseTime);
    }
  }

  /** A line without `=` contributes nothing and cannot fail. */
  lemma NoEqualsEntry(line: string, parseTime: string -> Option<real>)
    requires NoEquals(line)
    ensures LineEntry(line, parseTime) == Success(None)
  {
    NoEqualsNoCaptures(line);
  }

  type Entry = Result<Option<FileTiming>, ParseError>

  /** The running total of `f`, starting from 0 as `or_insert(0.0)` does. */
  function Get(m: map<string, real>, f: string): real
  {
    if f in m then m[f] else 0.0
  }

  /** What each line contributes, line by line. */
  function Entries(lines: seq<string>, parseTime: string -> Option<real>): (es: seq<Entry>)
    ensures |es| == |lines|
  {
    seq(|lines|, i requires 0 <= i < |lines| => LineEntry(lines[i], parseTime))
  }

  /** Adds each line's increment to `acc`, stopping at the first error. */
  function AccumulateFrom(es: seq<Entry>, acc: map<string, real>): Result<map<string, real>, ParseError>
    decreases |es|
  {
    if es == [] then Success(acc)
    else
      match es[0]
      case Failure(e) => Failure(e)
      case Success(None) => AccumulateFrom(es[1..], acc)
      case Success(Some(t)) => AccumulateFrom(es[1..], acc[t.file_path := Get(acc, t.file_path) + t.total_time])
  }

  /** Splits text into lines at `\n`, dropping the `\r` of a `\r\n` ending, as `str::lines` does. */
  function Lines(text: string): (ls: seq<string>)
    decreases |text|
  {
    if text == [] then []
    else
      var i := SpanEnd(text, 0, NotNewline);
      if i == |text| then [text]
      else
        var line := text[..i];
        [if line != [] && line[|line| - 1] == '\r' then line[..|line| - 1] else line] + Lines(text[i + 1..])
  }

  /** Lines joined with `\n` between them. */
  function JoinLines(ls: seq<string>): string
    requires |ls| > 0
  {
    if |ls| == 1 then ls[0] else ls[0] + "\n" + JoinLines(ls[1..])
  }

  /** A line as `str::lines` can yield it: no `\n` inside and no `\r` at its end. */
  predicate PlainLine(l: string)
  {
    AllIn(l, NotNewline) && (l == [] || l[|l| - 1] != '\r')
  }

  /** Attributes without line breaks in their keys and values write out to a single line. */
  lemma {:induction false} AttributesNoNewline(caps: seq<Capture>)
    requires forall i :: 0 <= i < |caps| ==> AllIn(caps[i].key, NotNewline) && AllIn(caps[i].value, NotNewline)
    ensures AllIn(Attributes(caps), NotNewline)
    decreases |caps|
  {
    if caps != [] {
      AttributesNoNewline(caps[1..]);
      var a := Attribute(caps[0]);
      assert a == " " + caps[0].key + "=\"" + caps[0].value + "\"";
      assert AllIn(a, NotNewline);
    }
  }

  /** A non-empty line on its own is one line. */
  lemma LinesOfOne(l: string)
    requires PlainLine(l) && l != []
    ensures Lines(l) == [l]
  {
    SpanEndIs(l, 0, |l|, NotNewline);
  }

  /** A line, `\n`, then more text: the line comes first, then the lines of the rest. */
  lemma LinesOfCons(l: string, more: string)
    requires PlainLine(l)
    ensures Lines(l + "\n" + more) == [l] + Lines(more)
  {
    var text := l + "\n" + more;
    assert text[|l|] == '\n';
    forall k | 0 <= k < |l| ensures In(text[k], NotNewline) {
      assert text[k] == l[k];
    }
    SpanEndIs(text, 0, |l|, NotNewline);
    assert text[..|l|] == l && text[|l| + 1..] == more;
  }

  /** Splitting joined lines gives the lines back, when the last one is not empty. */
  lemma {:induction false} LinesOfJoin(ls: seq<string>)
    requires |ls| > 0 && ls[|ls| - 1] != []
    requires forall i :: 0 <= i < |ls| ==> PlainLine(ls[i])
    ensures Lines(JoinLines(ls)) == ls
    decreases |ls|
  {
    if |ls| == 1 {
      LinesOfOne(ls[0]);
    } else {
      LinesOfCons(ls[0], JoinLines(ls[1..]));
      LinesOfJoin(ls[1..]);
      assert ls == [ls[0]] + ls[1..];
    }
  }

  /** The result of `parse_rspec_output`, as a map from path to total time. */
  function ParseSpec(text: string, parseTime: string -> Option<real>): Result<map<string, real>, ParseError>
  {
    AccumulateFrom(Entries(Lines(text), parseTime), map[])
  }

  /** The entry is an increment for path `f`. */
  predicate Contributes(e: Entry, f: string)
  {
    e.Success? && e.value.Some? && e.value.value.file_path == f
  }

  /** Some entry is an increment for path `f`. */
  predicate SomeContribution(es: seq<Entry>, f: string)
  {
    exists i :: 0 <= i < |es| && Contributes(es[i], f)
  }

  /** The sum of the increments for path `f`. */
  function SumFor(es: seq<Entry>, f: string): real
    decreases |es|
  {
    if es == [] then 0.0
    else (if Contributes(es[0], f) then es[0].value.value.total_time else 0.0) + SumFor(es[1..], f)
  }

  predicate SomeFailure(es: seq<Entry>)
  {
    exists i :: 0 <= i < |es| && es[i].Failure?
  }

  /** Some line has a `time` capture that does not parse. */
  ghost predicate SomeBadLine(lines: seq<string>, parseTime: string -> Option<real>)
  {
    exists i :: 0 <= i < |lines| && BadTime(Captures(lines[i], 0), parseTime)
  }

  /** The pass fails exactly when some line fails. */
  lemma {:induction false} AccumulateFailsIff(es: seq<Entry>, acc: map<string, real>)
    ensures AccumulateFrom(es, acc).Failure? <==> SomeFailure(es)
    decreases |es|
  {
    if es != [] {
      var acc' := if es[0].Success? && es[0].value.Some?
                  then acc[es[0].value.value.file_path := Get(acc, es[0].value.value.file_path) + es[0].value.value.total_time]
                  else acc;
      AccumulateFailsIff(es[1..], acc');
      if exists i :: 0 <= i < |es[1..]| && es[1..][i].Failure? {
        var i :| 0 <= i < |es[1..]| && es[1..][i].Failure?;
        assert es[i + 1] == es[1..][i];
      }
      if exists i :: 0 <= i < |es| && es[i].Failure? {
        var i :| 0 <= i < |es| && es[i].Failure?;
        if i > 0 {
          assert es[1..][i - 1] == es[i];
        }
      }
    }
  }

  /**
   * On success every path with an increment has one entry, holding the
   * sum of all its increments on top of what `acc` had; no other path
   * appears.
   */
  lemma {:induction false} AccumulateSums(es: seq<Entry>, acc: map<string, real>, f: string)
    requires AccumulateFrom(es, acc).Success?
    ensures f in AccumulateFrom(es, acc).value <==> f in acc || SomeContribution(es, f)
    ensures Get(AccumulateFrom(es, acc).value, f) == Get(acc, f) + SumFor(es, f)
    decreases |es|
  {
    if es != [] {
      var acc' := if es[0].value.Some?
                  then acc[es[0].value.value.file_path := Get(acc, es[0].value.value.file_path) + es[0].value.value.total_time]
                  else acc;
      AccumulateSums(es[1..], acc', f);
      if exists i :: 0 <= i < |es[1..]| && Contributes(es[1..][i], f) {
        var i :| 0 <= i < |es[1..]| && Contributes(es[1..][i], f);
        assert es[i + 1] == es[1..][i];
      }
      if exists i :: 0 <= i < |es| && Contributes(es[i], f) {
        var i :| 0 <= i < |es| && Contributes(es[i], f);
        if i > 0 {
          assert es[1..][i - 1] == es[i];
        }
      }
    }
  }

  /** Some line's entry is an error exactly when some line has a `time` that does not parse. */
  lemma EntriesFailIff(lines: seq<string>, parseTime: string -> Option<real>)
    ensures SomeFailure(Entries(lines, parseTime)) <==> SomeBadLine(lines, parseTime)
  {
    var es := Entries(lines, parseTime);
    forall i | 0 <= i < |lines| ensures es[i].Failure? <==> BadTime(Captures(lines[i], 0), parseTime) {
      assert es[i] == LineEntry(lines[i], parseTime);
      LineFailsIff(lines[i], parseTime);
    }
  }

  /** `parse_rspec_output` fails exactly when some line of the report has a `time` that does not parse. */
  lemma ParseFailsIff(text: string, parseTime: string -> Option<real>)
    ensures ParseSpec(text, parseTime).Failure? <==> SomeBadLine(Lines(text), parseTime)
  {
    var lines := Lines(text);
    var es := Entries(lines, parseTime);
    assert ParseSpec(text, parseTime) == AccumulateFrom(es, map[]);
    AccumulateFailsIff(es, map[]);
    EntriesFailIff(lines, parseTime);
  }

  /**
   * On success the result has one entry per path that some line gives an
   * increment, and that entry is the sum of all its increments.
   */
  lemma ParseSums(text: string, parseTime: string -> Option<real>, f: string)
    requires ParseSpec(text, parseTime).Success?
    ensures f in ParseSpec(text, parseTime).value <==> SomeContribution(Entries(Lines(text), parseTime), f)
    ensures f in ParseSpec(text, parseTime).value ==>
      ParseSpec(text, parseTime).value[f] == SumFor(Entries(Lines(text), parseTime), f)
  {
    var es := Entries(Lines(text), parseTime);
    assert ParseSpec(text, parseTime) == AccumulateFrom(es, map[]);
    AccumulateSums(es, map[], f);
  }

  // ---------------------------------------------------------------------
  // The loop as written
  // ---------------------------------------------------------------------

  /** `records` lists the entries of `m`, each once, in some order. */
  ghost predicate ListsMap(records: seq<FileTiming>, m: map<string, real>)
  {
    && DistinctPaths(records)
    && (forall f :: f in m <==> f in Paths(records))
    && (forall i :: 0 <= i < |records| ==> records[i].file_path in m && m[records[i].file_path] == records[i].total_time)
  }

  /** A map with a single path is listed as exactly that one record. */
  lemma ListsMapSingleton(records: seq<FileTiming>, f: string, t: real)
    requires ListsMap(records, map[f := t])
    ensures records == [FileTiming(f, t)]
  {
    assert f in Paths(records);
    forall j | 0 <= j < |records| ensures records[j] == FileTiming(f, t) {
      assert records[j].file_path in map[f := t];
    }
    assert |records| <= 1;
  }

  /** The inner loop over one line's captures. */
  method ScanLine(line: string, parseTime: string -> Option<real>) returns (r: Entry)
    ensures r == LineEntry(line, parseTime)
  {
    var caps := Captures(line, 0);
    var filePath: Option<string> := None;
    var time: Option<real> := None;
    for j := 0 to |caps|
      invariant ScanFrom(caps[j..], LineState(filePath, time), parseTime)
             == ScanFrom(caps, LineState(None, None), parseTime)
    {
      assert caps[j..][1..] == caps[j + 1..];
      var key, value := caps[j].key, caps[j].value;
      if key == "file" {
        filePath := Some(value);
      } else if key == "time" {
        var parsed := parseTime(value);
        if parsed.None? {
          return Failure(ParseError(value));
        }
        time := parsed;
      }
    }
    if filePath.Some? && time.Some? {
      r := Success(Some(FileTiming(filePath.value, time.value)));
    } else {
      r := Success(None);
    }
  }

  /** `HashMap::into_iter` followed by `collect`: every entry once, in no particular order. */
  method CollectRecords(fileTotals: map<string, real>) returns (records: seq<FileTiming>)
    ensures ListsMap(records, fileTotals)
  {
    records := [];
    var remaining := fileTotals.Keys;
    while remaining != {}
      invariant remaining <= fileTotals.Keys
      invariant DistinctPaths(records)
      invariant forall f :: f in Paths(records) <==> f in fileTotals && f !in remaining
      invariant forall i :: 0 <= i < |records| ==>
        records[i].file_path in fileTotals && fileTotals[records[i].file_path] == records[i].total_time
      decreases remaining
    {
      var f :| f in remaining;
      PathsAppend(records, [FileTiming(f, fileTotals[f])]);
      records := records + [FileTiming(f, fileTotals[f])];
      remaining := remaining - {f};
    }
  }

  lemma AccumulateStep(es: seq<Entry>, i: nat, acc: map<string, real>)
    requires i < |es|
    ensures es[i].Failure? ==> AccumulateFrom(es[i..], acc) == Failure(es[i].error)
    ensures es[i] == Success(None) ==> AccumulateFrom(es[i..], acc) == AccumulateFrom(es[i + 1..], acc)
    ensures es[i].Success? && es[i].value.Some? ==>
      var t := es[i].value.value;
      AccumulateFrom(es[i..], acc) == AccumulateFrom(es[i + 1..], acc[t.file_path := Get(acc, t.file_path) + t.total_time])
  {
    assert es[i..][1..] == es[i + 1..];
  }

  /** The loop over the report's lines, adding each line's increment to its file's total. */
  method AccumulateLines(lines: seq<string>, parseTime: string -> Option<real>)
    returns (r: Result<map<string, real>, ParseError>)
    ensures r == AccumulateFrom(Entries(lines, parseTime), map[])
  {
    ghost var es := Entries(lines, parseTime);
    var fileTotals: map<string, real> := map[];
    assert es[0..] == es;
    for i := 0 to |lines|
      invariant AccumulateFrom(es[i..], fileTotals) == AccumulateFrom(es, map[])
    {
      var entry := ScanLine(lines[i], parseTime);
      assert entry == es[i];
      AccumulateStep(es, i, fileTotals);
      if entry.Failure? {
        return Failure(entry.error);
      }
      if entry.value.Some? {
        var t := entry.value.value;
        fileTotals := fileTotals[t.file_path := Get(fileTotals, t.file_path) + t.total_time];
      }
    }
    assert es[|lines|..] == [];
    r := Success(fileTotals);
  }

  method ParseRspecOutput(rspecOutput: string, parseTime: string -> Option<real>)
    returns (r: Result<seq<FileTiming>, ParseError>)
    ensures r.Failure? <==> ParseSpec(rspecOutput, parseTime).Failure?
    ensures r.Failure? ==> r.error == ParseSpec(rspecOutput, parseTime).error
    ensures r.Success? ==> ListsMap(r.value, ParseSpec(rspecOutput, parseTime).value)
  {
    var fileTotals := AccumulateLines(Lines(rspecOutput), parseTime);
    if fileTotals.Failure? {
      return Failure(fileTotals.error);
    }
    var records := CollectRecords(fileTotals.value);
    r := Success(records);
  }
}
