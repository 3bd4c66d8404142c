/**
 * The two submission handlers, `POST /api/survey/student` and
 * `POST /api/survey/professor`: the stored record is the request body spread
 * over a fresh `id`, followed by four fields the server sets; the record is
 * appended to its population and the analysis is rebuilt over both.
 */
module Submission {
  import opened JsValue
  import opened Statistics
  import opened Analysis
  import opened Arith

  /** `{ ...r, ...body }`'s second half: each own property of `body`
      assigned onto `r`, in order. */
  function Spread(r: Record, body: seq<Field>): Record {
    if body == [] then r else Put(Spread(r, body[..|body| - 1]), body[|body| - 1].key, body[|body| - 1].value)
  }

  /** `req.body.completionTime || 'غير محدد'`. */
  function CompletionTime(body: Record): Value {
    var v := Get(body, "completionTime");
    if Truthy(v) then v.value else Str(Unspecified)
  }

  /** The keys the server writes after the body. */
  const ServerKeys: set<string> := {"timestamp", "ip", "completionTime", "submitted"}

  /** The properties the literal defines after the body, in order. */
  function ServerFields(body: Record, timestamp: string, ip: string): Record {
    [Field("timestamp", Str(timestamp)), Field("ip", Str(ip)), Field("completionTime", CompletionTime(body)), Field("submitted", Bool(true))]
  }

  /** `{ id: Date.now(), ...req.body, timestamp, ip, completionTime,
      submitted: true }`: each property definition assigns, in order. */
  function SurveyRecord(now: int, body: Record, timestamp: string, ip: string): Record {
    Spread(Spread([Field("id", Num(now))], body), ServerFields(body, timestamp, ip))
  }

  /** A property read on an object whose last key is `f.key`. */
  lemma {:induction false} GetSnoc(body: Record, k: string)
    requires |body| > 0
    ensures var n := |body| - 1;
      Get(body, k) == if k == body[n].key then Some(body[n].value) else Get(body[..n], k)
  {
    var n := |body| - 1;
    var pre, f := body[..n], body[n];
    assert body == pre + [f];
    if k == f.key {
      assert forall j :: 0 <= j < n ==> body[j].key != k;
      assert KeyIndex(body, k) == n;
    } else {
      KeyIndexAppend(pre, f, k);
      assert k in Keys(pre) <==> KeyIndex(pre, k) < |pre|;
    }
  }

  /** Spreading assigns the body's keys and leaves the others alone; the first
      key stays first. */
  lemma {:induction false} SpreadFacts(r: Record, body: Record)
    ensures forall k :: Get(Spread(r, body), k) == if Get(body, k).Some? then Get(body, k) else Get(r, k)
    ensures |r| > 0 ==> Spread(r, body)[0].key == r[0].key
  {
    if body != [] {
      var n := |body| - 1;
      var pre: Record := body[..n];
      var f := body[n];
      SpreadFacts(r, pre);
      var s := Spread(r, pre);
      assert Spread(r, body) == Put(s, f.key, f.value);
      forall k ensures Get(body, k) == if k == f.key then Some(f.value) else Get(pre, k) {
        GetSnoc(body, k);
      }
    }
  }

  /** The record before the server's four fields: the body spread over the
      generated `id`. */
  lemma {:induction false} SpreadOverId(now: int, body: Record)
    ensures var r := Spread([Field("id", Num(now))], body);
      |r| > 0 && r[0].key == "id" &&
      forall k :: Get(r, k) == if Get(body, k).Some? then Get(body, k) else if k == "id" then Some(Num(now)) else None
  {
    var start: Record := [Field("id", Num(now))];
    forall k ensures Get(start, k) == if k == "id" then Some(Num(now)) else None {
      assert KeyIndex(start, k) == if k == "id" then 0 else 1;
    }
    SpreadFacts(start, body);
  }

  /** One property of the stored record: the server's four fields win over
      the body, the body wins over the generated `id`. */
  lemma {:induction false} RecordGet(now: int, body: Record, timestamp: string, ip: string, k: string)
    ensures Get(SurveyRecord(now, body, timestamp, ip), k) ==
      if k == "timestamp" then Some(Str(timestamp)) else if k == "ip" then Some(Str(ip))
      else if k == "completionTime" then Some(CompletionTime(body)) else if k == "submitted" then Some(Bool(true))
      else if Get(body, k).Some? then Get(body, k) else if k == "id" then Some(Num(now)) else None
  {
    SpreadOverId(now, body);
    var sf := ServerFields(body, timestamp, ip);
    SpreadFacts(Spread([Field("id", Num(now))], body), sf);
    ServerFieldsGet(body, timestamp, ip, k);
  }

  lemma {:induction false} ServerFieldsGet(body: Record, timestamp: string, ip: string, k: string)
    ensures var sf := ServerFields(body, timestamp, ip);
      Get(sf, k) ==
      if k == "timestamp" then Some(Str(timestamp)) else if k == "ip" then Some(Str(ip))
      else if k == "completionTime" then Some(CompletionTime(body)) else if k == "submitted" then Some(Bool(true))
      else None
  {
    var sf := ServerFields(body, timestamp, ip);
    var i := KeyIndex(sf, k);
    assert sf[0].key == "timestamp" && sf[1].key == "ip" && sf[2].key == "completionTime" && sf[3].key == "submitted";
    if k == "timestamp" {
      assert i == 0;
    } else if k == "ip" {
      assert i == 1;
    } else if k == "completionTime" {
      assert i == 2;
    } else if k == "submitted" {
      assert i == 3;
    } else {
      assert i == 4;
    }
  }

  lemma {:induction false} RecordFirstKey(now: int, body: Record, timestamp: string, ip: string)
    ensures |SurveyRecord(now, body, timestamp, ip)| > 0 && SurveyRecord(now, body, timestamp, ip)[0].key == "id"
  {
    SpreadOverId(now, body);
    SpreadFacts(Spread([Field("id", Num(now))], body), ServerFields(body, timestamp, ip));
  }

  /** The stored record: the server's four fields always win, the body's
      `id` overrides the generated one, every other key of the body is
      kept, nothing else is present, and `id` is the first key. */
  lemma {:induction false} SurveyRecordFacts(now: int, body: Record, timestamp: string, ip: string)
    ensures var r := SurveyRecord(now, body, timestamp, ip);
      r[0].key == "id" &&
      Get(r, "submitted") == Some(Bool(true)) &&
      Get(r, "timestamp") == Some(Str(timestamp)) &&
      Get(r, "ip") == Some(Str(ip)) &&
      Get(r, "completionTime") == Some(CompletionTime(body)) &&
      Get(r, "id") == (if Get(body, "id").Some? then Get(body, "id") else Some(Num(now))) &&
      (forall k :: k != "id" && k !in ServerKeys ==> Get(r, k) == Get(body, k))
  {
    RecordFirstKey(now, body, timestamp, ip);
    var r := SurveyRecord(now, body, timestamp, ip);
    RecordGet(now, body, timestamp, ip, "submitted");
    RecordGet(now, body, timestamp, ip, "timestamp");
    RecordGet(now, body, timestamp, ip, "ip");
    RecordGet(now, body, timestamp, ip, "completionTime");
    RecordGet(now, body, timestamp, ip, "id");
    forall k | k != "id" && k !in ServerKeys ensures Get(r, k) == Get(body, k) {
      RecordGet(now, body, timestamp, ip, k);
    }
  }

  /** The response's `id` is the stored record's, which the body may set. */
  lemma {:induction false} RecordId(now: int, body: Record, timestamp: string, ip: string)
    ensures Get(SurveyRecord(now, body, timestamp, ip), "id") ==
      if Get(body, "id").Some? then Get(body, "id") else Some(Num(now))
  {
    RecordGet(now, body, timestamp, ip, "id");
  }

  /** Every stored record is marked submitted, and so counts as completed. */
  lemma {:induction false} RecordSubmitted(now: int, body: Record, timestamp: string, ip: string)
    ensures Get(SurveyRecord(now, body, timestamp, ip), "submitted") == Some(Bool(true))
    ensures IsCompleted(SurveyRecord(now, body, timestamp, ip))
  {
    RecordGet(now, body, timestamp, ip, "submitted");
  }

  /** A body without a usable completion time stores "unspecified", which
      the average never counts. */
  lemma {:induction false} MissingTimeIgnored(now: int, body: Record, timestamp: string, ip: string)
    requires !Truthy(Get(body, "completionTime"))
    ensures TimeOf(SurveyRecord(now, body, timestamp, ip)) == 0
  {
    var r := SurveyRecord(now, body, timestamp, ip);
    RecordGet(now, body, timestamp, ip, "completionTime");
    UnspecifiedTimeIgnored(SurveyRecord(now, body, timestamp, ip));
  }

  predicate AllSubmitted(rs: seq<Record>) {
    forall i :: 0 <= i < |rs| ==> Get(rs[i], "submitted") == Some(Bool(true))
  }

  /** Every record the handlers store is marked submitted, so over records
      stored this way the completion rate is 100%. */
  lemma {:induction false} SubmittedRate(rs: seq<Record>)
    requires |rs| > 0 && AllSubmitted(rs)
    ensures CompletionRate(rs) == 100.0
    ensures RateText(rs) == "100.0%"
  {
    assert forall i :: 0 <= i < |rs| ==> IsCompleted(rs[i]);
    CompletedCountBounds(rs);
    CompletionRateFacts(rs);
    WholeTenths(|rs|);
    HundredText();
  }

  lemma {:induction false} WholeTenths(n: nat)
    requires n > 0
    ensures Tenths(100 * n, n) == 1000
  {
    var t := Tenths(100 * n, n);
    TenthsAtMost(100 * n, n, 100);
    if t < 1000 {
      MulLe(2 * n, t + 1, 1000);
      assert false;
    }
  }

  lemma {:induction false} HundredText()
    ensures Fixed1(1000) == "100.0"
  {
    assert NatToString(1) == "1";
    assert NatToString(10) == NatToString(1) + "0";
    assert NatToString(100) == NatToString(10) + "0";
  }

  /** The server's state: the two stored populations and the analysis last
      written, if any. */
  class Survey {
    var students: seq<Record>
    var professors: seq<Record>
    var analysis: Option<Report>

    /** The stored analysis, once there is one, is the analysis of the
        stored populations at the two clock readings it records. */
    predicate Valid()
      reads this
    {
      analysis.Some? ==>
        analysis.value == ReportOf(students, professors, analysis.value.summary.lastUpdate, analysis.value.lastUpdated)
    }

    /** The populations found on disk at start-up; no analysis yet. */
    constructor(students: seq<Record>, professors: seq<Record>)
      ensures this.students == students && this.professors == professors && analysis == None
      ensures Valid()
    {
      this.students := students;
      this.professors := professors;
      analysis := None;
    }

    /** `updateAnalysis()`: the analysis of the stored populations is
        rebuilt and stored; the populations are left alone. */
    method RefreshAnalysis(localTime: string, isoTime: string)
      modifies this
      ensures students == old(students) && professors == old(professors)
      ensures analysis == Some(ReportOf(students, professors, localTime, isoTime))
      ensures Valid()
    {
      var report := UpdateAnalysis(students, professors, localTime, isoTime);
      analysis := Some(report);
      ReportClocks(students, professors, localTime, isoTime);
    }

    /** The student handler: `now` is `Date.now()`, `stamp` the record's
        local time, `localTime` and `isoTime` the two readings
        `updateAnalysis` takes. Returns the response's `id`, `timestamp`
        and `totalStudents`. */
    method SubmitStudent(body: Record, now: int, stamp: string, ip: string, localTime: string, isoTime: string)
      returns (id: Value, timestamp: string, totalStudents: nat)
      modifies this
      ensures students == old(students) + [SurveyRecord(now, body, stamp, ip)]
      ensures professors == old(professors)
      ensures analysis == Some(ReportOf(students, professors, localTime, isoTime))
      ensures Valid()
      ensures id == (if Get(body, "id").Some? then Get(body, "id").value else Num(now))
      ensures timestamp == stamp && totalStudents == |students|
    {
      var record := SurveyRecord(now, body, stamp, ip);
      RecordId(now, body, stamp, ip);
      students := students + [record];
      RefreshAnalysis(localTime, isoTime);
      id := Get(record, "id").value;
      timestamp := stamp;
      totalStudents := |students|;
    }

    /** The professor handler, the same with the other population. */
    method SubmitProfessor(body: Record, now: int, stamp: string, ip: string, localTime: string, isoTime: string)
      returns (id: Value, timestamp: string, totalProfessors: nat)
      modifies this
      ensures professors == old(professors) + [SurveyRecord(now, body, stamp, ip)]
      ensures students == old(students)
      ensures analysis == Some(ReportOf(students, professors, localTime, isoTime))
      ensures Valid()
      ensures id == (if Get(body, "id").Some? then Get(body, "id").value else Num(now))
      ensures timestamp == stamp && totalProfessors == |professors|
    {
      var record := SurveyRecord(now, body, stamp, ip);
      RecordId(now, body, stamp, ip);
      professors := professors + [record];
      RefreshAnalysis(localTime, isoTime);
      id := Get(record, "id").value;
      timestamp := stamp;
      totalProfessors := |professors|;
    }
  }

  /** Appending a stored record keeps a population all-submitted. */
  lemma {:induction false} SubmitKeepsSubmitted(rs: seq<Record>, now: int, body: Record, timestamp: string, ip: string)
    requires AllSubmitted(rs)
    ensures AllSubmitted(rs + [SurveyRecord(now, body, timestamp, ip)])
  {
    RecordSubmitted(now, body, timestamp, ip);
    var rs' := rs + [SurveyRecord(now, body, timestamp, ip)];
    assert forall i :: 0 <= i < |rs| ==> rs'[i] == rs[i];
  }
}
