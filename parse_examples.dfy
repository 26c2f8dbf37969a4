/**
 * The report of the unit test in src/timings/parse.rs: two noise lines,
 * two `<testcase>` elements for the same spec file with times 0.164580
 * and 0.42, a blank first line and an indented last line. The totals are
 * one entry for that file holding 0.584580.
 */
module ParseExamples {
  import opened Timings
  import opened Parse

  const WorkerSpec := "./spec/lib/deliveries/worker_spec.rb"

  /** The text before and after the attributes of a `<testcase>` line. */
  const TestcaseTag := "            <testcase"
  const TestcaseTail := "></testcase>"

  /** The four attributes of a `<testcase>` element of the report, in the order the test writes them. */
  function TestcaseAttributes(name: string, time: string): seq<Capture>
  {
    [ Capture("classname", "spec.lib.deliveries.worker_spec"), Capture("name", name),
      Capture("file", WorkerSpec), Capture("time", time) ]
  }

  /** One `<testcase>` element of the report, as the test writes it. */
  function TestcaseLine(name: string, time: string): string
  {
    TestcaseTag + Attributes(TestcaseAttributes(name, time)) + TestcaseTail
  }

  /** The tag ends in a non-blank; neither the tag nor the closing text holds `=`. */
  lemma TestcaseFrame()
    ensures |TestcaseTag| > 0 && !IsSpace(TestcaseTag[|TestcaseTag| - 1])
    ensures NoEquals(TestcaseTag) && NoEquals(TestcaseTail)
  {
  }

  /** The fixed `classname` attribute of a `<testcase>` line is one the pattern can capture. */
  lemma ClassnameValid()
    ensures ValidCapture(Capture("classname", "spec.lib.deliveries.worker_spec"))
  {
  }

  /** The fixed `file` attribute of a `<testcase>` line is one the pattern can capture. */
  lemma FileValid()
    ensures ValidCapture(Capture("file", WorkerSpec))
  {
  }

  /** The `name` and `time` attributes of a `<testcase>` line are captures of the pattern. */
  lemma NameTimeValid(name: string, time: string)
    requires ValidValue(name) && ValidValue(time)
    ensures ValidCapture(Capture("name", name)) && ValidCapture(Capture("time", time))
  {
  }

  lemma TestcaseCaptures(name: string, time: string)
    requires ValidValue(name) && ValidValue(time)
    ensures Captures(TestcaseLine(name, time), 0) == TestcaseAttributes(name, time)
  {
    var caps := TestcaseAttributes(name, time);
    NameTimeValid(name, time);
    TestcaseFrame();
    ClassnameValid();
    FileValid();
    assert forall i :: 0 <= i < |caps| ==> ValidCapture(caps[i]) by {
      assert caps[0] == Capture("classname", "spec.lib.deliveries.worker_spec");
      assert caps[2] == Capture("file", WorkerSpec);
    }
    TagLineCaptures(TestcaseTag, caps, TestcaseTail);
  }

  /** A `<testcase>` line adds its time to the spec file's total. */
  lemma TestcaseEntry(line: string, name: string, time: string, parseTime: string -> Option<real>)
    requires ValidValue(name) && ValidValue(time)
    requires line == TestcaseLine(name, time)
    requires parseTime(time).Some?
    ensures LineEntry(line, parseTime) == Success(Some(FileTiming(WorkerSpec, parseTime(time).value)))
  {
    var caps := TestcaseAttributes(name, time);
    TestcaseCaptures(name, time);
    assert Captures(line, 0) == caps;
    var st := LineState(None, None);
    var done := LineState(Some(WorkerSpec), parseTime(time));
    assert ScanFrom(caps[3..], st.(file := Some(WorkerSpec)), parseTime) == Success(done) by {
      assert caps[3..][1..] == [];
    }
    assert ScanFrom(caps[2..], st, parseTime) == Success(done) by {
      assert caps[2..][1..] == caps[3..];
    }
    assert ScanFrom(caps[1..], st, parseTime) == Success(done) by {
      assert caps[1..][1..] == caps[2..];
    }
  }

  /** The fixed text of a `<testcase>` line has no line break and does not end in `\r`. */
  lemma FramePlain()
    ensures AllIn(TestcaseTag, NotNewline) && AllIn(TestcaseTail, NotNewline)
    ensures TestcaseTail[|TestcaseTail| - 1] == '>'
  {
  }

  /** The fixed attributes of a `<testcase>` line have no line break. */
  lemma FixedAttributesPlain()
    ensures AllIn("classname", NotNewline) && AllIn("spec.lib.deliveries.worker_spec", NotNewline)
    ensures AllIn("name", NotNewline) && AllIn("file", NotNewline) && AllIn(WorkerSpec, NotNewline) && AllIn("time", NotNewline)
  {
  }

  lemma NoNewlineJoin(a: string, b: string, c: string)
    requires AllIn(a, NotNewline) && AllIn(b, NotNewline) && AllIn(c, NotNewline)
    ensures AllIn(a + b + c, NotNewline)
  {
    forall k | 0 <= k < |a + b + c| ensures (a + b + c)[k] != '\n' {
      if k < |a| {
        assert (a + b + c)[k] == a[k];
      } else if k < |a| + |b| {
        assert (a + b + c)[k] == b[k - |a|];
      } else {
        assert (a + b + c)[k] == c[k - |a| - |b|];
      }
    }
  }

  lemma TestcaseLinePlain(name: string, time: string)
    requires AllIn(name, NotNewline) && AllIn(time, NotNewline)
    ensures PlainLine(TestcaseLine(name, time))
  {
    var caps := TestcaseAttributes(name, time);
    FixedAttributesPlain();
    AttributesNoNewline(caps);
    FramePlain();
    var line := TestcaseLine(name, time);
    assert line == TestcaseTag + Attributes(caps) + TestcaseTail;
    NoNewlineJoin(TestcaseTag, Attributes(caps), TestcaseTail);
    assert line[|line| - 1] == TestcaseTail[|TestcaseTail| - 1];
  }

  /**
   * The shape of the test report, for any test names and times: three
   * lines without `=`, two `<testcase>` lines for the same file, and a
   * last line without `=`.
   */
  lemma WorkerSpecEntries(lines: seq<string>, n1: string, t1: string, n2: string, t2: string,
                          v1: real, v2: real, parseTime: string -> Option<real>)
    requires |lines| == 6
    requires NoEquals(lines[0]) && NoEquals(lines[1]) && NoEquals(lines[2]) && NoEquals(lines[5])
    requires lines[3] == TestcaseLine(n1, t1) && lines[4] == TestcaseLine(n2, t2)
    requires ValidValue(n1) && ValidValue(t1) && ValidValue(n2) && ValidValue(t2)
    requires parseTime(t1) == Some(v1) && parseTime(t2) == Some(v2)
    ensures |Entries(lines, parseTime)| == 6
    ensures Entries(lines, parseTime)[0] == Success(None) && Entries(lines, parseTime)[1] == Success(None)
    ensures Entries(lines, parseTime)[2] == Success(None) && Entries(lines, parseTime)[5] == Success(None)
    ensures Entries(lines, parseTime)[3] == Success(Some(FileTiming(WorkerSpec, v1)))
    ensures Entries(lines, parseTime)[4] == Success(Some(FileTiming(WorkerSpec, v2)))
  {
    var es := Entries(lines, parseTime);
    assert es[0] == Success(None) by { NoEqualsEntry(lines[0], parseTime); }
    assert es[1] == Success(None) by { NoEqualsEntry(lines[1], parseTime); }
    assert es[2] == Success(None) by { NoEqualsEntry(lines[2], parseTime); }
    assert es[5] == Success(None) by { NoEqualsEntry(lines[5], parseTime); }
    assert es[3] == Success(Some(FileTiming(WorkerSpec, v1))) by {
      TestcaseEntry(lines[3], n1, t1, parseTime);
    }
    assert es[4] == Success(Some(FileTiming(WorkerSpec, v2))) by {
      TestcaseEntry(lines[4], n2, t2, parseTime);
    }
  }

  /** Two increments for the same file add up, starting from 0. */
  lemma WorkerSpecTotals(es: seq<Entry>, v1: real, v2: real)
    requires |es| == 6
    requires es[0] == Success(None) && es[1] == Success(None) && es[2] == Success(None) && es[5] == Success(None)
    requires es[3] == Success(Some(FileTiming(WorkerSpec, v1))) && es[4] == Success(Some(FileTiming(WorkerSpec, v2)))
    ensures AccumulateFrom(es, map[]) == Success(map[WorkerSpec := v1 + v2])
  {
    var m1 := map[WorkerSpec := v1];
    var m2 := map[WorkerSpec := v1 + v2];
    assert m1[WorkerSpec := Get(m1, WorkerSpec) + v2] == m2;
    assert map[][WorkerSpec := Get(map[], WorkerSpec) + v1] == m1;
    assert es[5..][1..] == [];
    assert AccumulateFrom(es[5..], m2) == Success(m2);
    assert es[4..][1..] == es[5..];
    assert AccumulateFrom(es[4..], m1) == Success(m2);
    assert es[3..][1..] == es[4..];
    assert AccumulateFrom(es[3..], map[]) == Success(m2);
    assert es[2..][1..] == es[3..];
    assert AccumulateFrom(es[2..], map[]) == Success(m2);
    assert es[1..][1..] == es[2..];
    assert AccumulateFrom(es[1..], map[]) == Success(m2);
    assert es[0..][1..] == es[1..];
    assert es[0..] == es;
  }

  /** The lines of the test report. */
  function ReportLines(): seq<string>
  {
    [ "",
      "            <garbage>",
      "            q-rj9r1-924i-ef0iw-fi-0iqp2ojlkj",
      TestcaseLine("Some spec name", "0.164580"),
      TestcaseLine("Some spec name 2", "0.42"),
      "        " ]
  }

  lemma ReportLinesPlain()
    ensures forall i :: 0 <= i < |ReportLines()| ==> PlainLine(ReportLines()[i])
  {
    var ls := ReportLines();
    assert PlainLine(ls[3]) by {
      TestcaseLinePlain("Some spec name", "0.164580");
    }
    assert PlainLine(ls[4]) by {
      TestcaseLinePlain("Some spec name 2", "0.42");
    }
    NoiseLines();
  }

  /** The report's noise lines hold no line break and no `=`. */
  lemma NoiseLines()
    ensures PlainLine(ReportLines()[0]) && PlainLine(ReportLines()[1])
    ensures PlainLine(ReportLines()[2]) && PlainLine(ReportLines()[5])
    ensures NoEquals(ReportLines()[0]) && NoEquals(ReportLines()[1])
    ensures NoEquals(ReportLines()[2]) && NoEquals(ReportLines()[5])
  {
  }

  /** The names and times of the report's two test cases are values the pattern can capture. */
  lemma ReportCapturesValid()
    ensures ValidValue("Some spec name") && ValidValue("0.164580")
    ensures ValidValue("Some spec name 2") && ValidValue("0.42")
  {
  }

  /** The increments of the test report add up to one total for the spec file. */
  lemma ReportEntriesTotals(parseTime: string -> Option<real>)
    requires parseTime("0.164580") == Some(0.164580) && parseTime("0.42") == Some(0.42)
    ensures AccumulateFrom(Entries(ReportLines(), parseTime), map[]) == Success(map[WorkerSpec := 0.584580])
  {
    NoiseLines();
    ReportCapturesValid();
    WorkerSpecEntries(ReportLines(), "Some spec name", "0.164580", "Some spec name 2", "0.42", 0.164580, 0.42, parseTime);
    WorkerSpecTotals(Entries(ReportLines(), parseTime), 0.164580, 0.42);
  }

  /**
   * The test's expectation: the report yields the single total 0.584580
   * for the spec file, given that the two times read as 0.164580 and 0.42.
   */
  lemma ReportTotals(parseTime: string -> Option<real>)
    requires parseTime("0.164580") == Some(0.164580) && parseTime("0.42") == Some(0.42)
    ensures ParseSpec(JoinLines(ReportLines()), parseTime) == Success(map[WorkerSpec := 0.584580])
  {
    ReportLinesPlain();
    LinesOfJoin(ReportLines());
    ReportEntriesTotals(parseTime);
  }

  /** Whatever order the map is read in, the records are that one total. */
  lemma ReportRecords(records: seq<FileTiming>)
    requires ListsMap(records, map[WorkerSpec := 0.584580])
    ensures records == [FileTiming(WorkerSpec, 0.584580)]
  {
    ListsMapSingleton(records, WorkerSpec, 0.584580);
  }
}
