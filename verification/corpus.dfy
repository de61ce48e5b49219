/** The corpus builder of `backend/data_ingestion.py`: per-employee
    aggregation of skills, certifications and project summaries, rendering of
    one labelled text chunk per employee, and the upsert loop that keeps the
    vector collection keyed by employee id. */
module Corpus {
  import opened Wrappers
  import opened Text
  import opened Records

  /** One row of the aggregated frame: an employee's own columns plus the
      three rendered groups, with every missing value already filled by "". */
  datatype ProfileRow = ProfileRow(
    employeeId: string,
    role: string,
    primarySkill: string,
    skills: string,
    certifications: string,
    experience: string)

  // ---------------------------------------------------------------------
  // Aggregation (group by employee id, left join, fill with "")
  // ---------------------------------------------------------------------

  /** `"name (N yrs)"`. */
  function RenderSkill(r: SkillRecord): string {
    r.skillName + " (" + NatToString(r.yearsExperience) + " yrs)"
  }

  /** The rendered skills of employee `id`, in table order. */
  function SkillEntries(id: string, skills: seq<SkillRecord>): (r: seq<string>)
    ensures |r| <= |skills|
    ensures r == [] <==> forall i :: 0 <= i < |skills| ==> skills[i].employeeId != id
    ensures forall k :: 0 <= k < |r| ==>
              exists i :: 0 <= i < |skills| && skills[i].employeeId == id && r[k] == RenderSkill(skills[i])
    decreases |skills|
  {
    if skills == [] then []
    else
      var rest := SkillEntries(id, skills[1..]);
      assert forall i :: 1 <= i < |skills| ==> skills[i] == skills[1..][i - 1];
      if skills[0].employeeId == id then [RenderSkill(skills[0])] + rest else rest
  }

  /** The certificate names of employee `id`, in table order. */
  function CertNames(id: string, certs: seq<CertificationRecord>): (r: seq<string>)
    ensures |r| <= |certs|
    ensures r == [] <==> forall i :: 0 <= i < |certs| ==> certs[i].employeeId != id
    ensures forall k :: 0 <= k < |r| ==>
              exists i :: 0 <= i < |certs| && certs[i].employeeId == id && r[k] == certs[i].certificateName
    decreases |certs|
  {
    if certs == [] then []
    else
      var rest := CertNames(id, certs[1..]);
      assert forall i :: 1 <= i < |certs| ==> certs[i] == certs[1..][i - 1];
      if certs[0].employeeId == id then [certs[0].certificateName] + rest else rest
  }

  /** The project experience summaries of employee `id`, in table order. */
  function Summaries(id: string, projects: seq<ProjectRecord>): (r: seq<string>)
    ensures |r| <= |projects|
    ensures r == [] <==> forall i :: 0 <= i < |projects| ==> projects[i].employeeId != id
    ensures forall k :: 0 <= k < |r| ==>
              exists i :: 0 <= i < |projects| && projects[i].employeeId == id && r[k] == projects[i].experienceSummary
    decreases |projects|
  {
    if projects == [] then []
    else
      var rest := Summaries(id, projects[1..]);
      assert forall i :: 1 <= i < |projects| ==> projects[i] == projects[1..][i - 1];
      if projects[0].employeeId == id then [projects[0].experienceSummary] + rest else rest
  }

  /** `fillna("")` on a nullable column. */
  function Fill(v: Option<string>): string {
    v.GetOr("")
  }

  /** The aggregated row of one employee: the left join of the three groups
      onto the employee, missing groups and null columns rendered as "". */
  function AggregateEmployee(
    e: EmployeeRecord,
    skills: seq<SkillRecord>,
    certs: seq<CertificationRecord>,
    projects: seq<ProjectRecord>): ProfileRow
  {
    ProfileRow(
      e.employeeId,
      Fill(e.role),
      Fill(e.primarySkill),
      Join(", ", SkillEntries(e.employeeId, skills)),
      Join(", ", CertNames(e.employeeId, certs)),
      Join(" ", Summaries(e.employeeId, projects)))
  }

  /** `aggregate_employee_data`: one aggregated row per employee row, in the
      employees table's order (a left join never drops or repeats a row of
      the left table, because each group has one row per employee id). */
  function Aggregate(
    employees: seq<EmployeeRecord>,
    skills: seq<SkillRecord>,
    certs: seq<CertificationRecord>,
    projects: seq<ProjectRecord>): (rows: seq<ProfileRow>)
    ensures |rows| == |employees|
    ensures forall i :: 0 <= i < |rows| ==> rows[i].employeeId == employees[i].employeeId
  {
    seq(|employees|, i requires 0 <= i < |employees| =>
      AggregateEmployee(employees[i], skills, certs, projects))
  }

  /** An employee without skill, certification or project rows, or with a
      null role or primary skill, gets "" in that column, never a null marker. */
  lemma AbsentRendersEmpty(
    employees: seq<EmployeeRecord>,
    skills: seq<SkillRecord>,
    certs: seq<CertificationRecord>,
    projects: seq<ProjectRecord>,
    i: nat)
    requires i < |employees|
    ensures var row := Aggregate(employees, skills, certs, projects)[i];
            var id := employees[i].employeeId;
            && (employees[i].role == None ==> row.role == "")
            && (employees[i].primarySkill == None ==> row.primarySkill == "")
            && ((forall k :: 0 <= k < |skills| ==> skills[k].employeeId != id) <==> row.skills == "")
            && ((forall k :: 0 <= k < |certs| ==> certs[k].employeeId != id) ==> row.certifications == "")
            && ((forall k :: 0 <= k < |projects| ==> projects[k].employeeId != id) ==> row.experience == "")
  {
    var id := employees[i].employeeId;
    var entries := SkillEntries(id, skills);
    if entries != [] {
      JoinSkillsNonEmpty(entries, id, skills);
    }
  }

  /** Every rendered skill entry ends in " yrs)", so a non-empty entry list
      never joins to "". */
  lemma JoinSkillsNonEmpty(entries: seq<string>, id: string, skills: seq<SkillRecord>)
    requires entries == SkillEntries(id, skills) && entries != []
    ensures Join(", ", entries) != ""
  {
    var k :| 0 <= k < |skills| && skills[k].employeeId == id;
    JoinHeadNonEmpty(id, skills);
  }

  lemma {:induction false} JoinHeadNonEmpty(id: string, skills: seq<SkillRecord>)
    requires SkillEntries(id, skills) != []
    ensures Join(", ", SkillEntries(id, skills)) != ""
    decreases |skills|
  {
    var entries := SkillEntries(id, skills);
    if skills[0].employeeId == id {
      assert entries[0] == RenderSkill(skills[0]);
      assert |Join(", ", entries)| >= |entries[0]|;
    } else {
      assert entries == SkillEntries(id, skills[1..]);
      JoinHeadNonEmpty(id, skills[1..]);
    }
  }

  /** The groups are taken row by row in table order: the group of two
      tables one after the other is the group of the first followed by the
      group of the second. */
  lemma {:induction false} SkillEntriesSplit(id: string, a: seq<SkillRecord>, b: seq<SkillRecord>)
    ensures SkillEntries(id, a + b) == SkillEntries(id, a) + SkillEntries(id, b)
    decreases |a|
  {
    if a == [] {
      assert a + b == b;
    } else {
      assert (a + b)[1..] == a[1..] + b;
      SkillEntriesSplit(id, a[1..], b);
    }
  }

  lemma {:induction false} CertNamesSplit(id: string, a: seq<CertificationRecord>, b: seq<CertificationRecord>)
    ensures CertNames(id, a + b) == CertNames(id, a) + CertNames(id, b)
    decreases |a|
  {
    if a == [] {
      assert a + b == b;
    } else {
      assert (a + b)[1..] == a[1..] + b;
      CertNamesSplit(id, a[1..], b);
    }
  }

  lemma {:induction false} SummariesSplit(id: string, a: seq<ProjectRecord>, b: seq<ProjectRecord>)
    ensures Summaries(id, a + b) == Summaries(id, a) + Summaries(id, b)
    decreases |a|
  {
    if a == [] {
      assert a + b == b;
    } else {
      assert (a + b)[1..] == a[1..] + b;
      SummariesSplit(id, a[1..], b);
    }
  }

  /** A one-row table contributes its row, rendered, exactly when the row
      belongs to the employee. With the split lemmas this fixes every group:
      each of the employee's rows, in table order, and nothing else. */
  lemma GroupsOfOneRow(id: string, s: SkillRecord, c: CertificationRecord, p: ProjectRecord)
    ensures SkillEntries(id, [s]) == if s.employeeId == id then [RenderSkill(s)] else []
    ensures CertNames(id, [c]) == if c.employeeId == id then [c.certificateName] else []
    ensures Summaries(id, [p]) == if p.employeeId == id then [p.experienceSummary] else []
  {
  }

  /** A row of another employee, appended to any of the three tables,
      changes none of the employee's columns. */
  lemma OtherRowsIgnored(
    e: EmployeeRecord,
    skills: seq<SkillRecord>, s: SkillRecord,
    certs: seq<CertificationRecord>, c: CertificationRecord,
    projects: seq<ProjectRecord>, p: ProjectRecord)
    requires s.employeeId != e.employeeId && c.employeeId != e.employeeId && p.employeeId != e.employeeId
    ensures AggregateEmployee(e, skills + [s], certs + [c], projects + [p])
         == AggregateEmployee(e, skills, certs, projects)
  {
    var id := e.employeeId;
    SkillEntriesSplit(id, skills, [s]);
    CertNamesSplit(id, certs, [c]);
    SummariesSplit(id, projects, [p]);
    GroupsOfOneRow(id, s, c, p);
    assert SkillEntries(id, skills) + [] == SkillEntries(id, skills);
    assert CertNames(id, certs) + [] == CertNames(id, certs);
    assert Summaries(id, projects) + [] == Summaries(id, projects);
  }

  /** The part a new row adds to a joined column: the row alone when the
      employee had no row before, otherwise the separator and the row. */
  function Appended(before: string, hadRows: bool, sep: string, entry: string): string {
    if hadRows then before + sep + entry else entry
  }

  /** A skill row of the employee appended to the skills table is added to
      the end of the skills column as "name (N yrs)", after ", " when the
      employee already had skill rows, and N reads back as the row's years
      of experience. */
  lemma SkillRendering(
    e: EmployeeRecord,
    skills: seq<SkillRecord>,
    s: SkillRecord,
    certs: seq<CertificationRecord>,
    projects: seq<ProjectRecord>)
    requires s.employeeId == e.employeeId
    ensures var before := AggregateEmployee(e, skills, certs, projects).skills;
            var after := AggregateEmployee(e, skills + [s], certs, projects).skills;
            var n := NatToString(s.yearsExperience);
            && after == Appended(before, exists k :: 0 <= k < |skills| && skills[k].employeeId == e.employeeId, ", ", s.skillName + " (" + n + " yrs)")
            && ParseDecimal(n) == s.yearsExperience
  {
    var id := e.employeeId;
    SkillEntriesSplit(id, skills, [s]);
    GroupsOfOneRow(id, s, CertificationRecord(id, ""), ProjectRecord(id, ""));
    var entries := SkillEntries(id, skills);
    if entries != [] {
      JoinSnoc(", ", entries, RenderSkill(s));
    } else {
      assert entries + [RenderSkill(s)] == [RenderSkill(s)];
    }
    ParseNatToString(s.yearsExperience);
  }

  /** A certificate of the employee appended to the certifications table is
      added to the end of the column, after ", " when the employee already
      had certificates. */
  lemma CertificationAppended(
    e: EmployeeRecord,
    skills: seq<SkillRecord>,
    certs: seq<CertificationRecord>,
    c: CertificationRecord,
    projects: seq<ProjectRecord>)
    requires c.employeeId == e.employeeId
    ensures var before := AggregateEmployee(e, skills, certs, projects).certifications;
            var after := AggregateEmployee(e, skills, certs + [c], projects).certifications;
            after == Appended(before, exists k :: 0 <= k < |certs| && certs[k].employeeId == e.employeeId, ", ", c.certificateName)
  {
    var id := e.employeeId;
    CertNamesSplit(id, certs, [c]);
    GroupsOfOneRow(id, SkillRecord(id, "", 0), c, ProjectRecord(id, ""));
    var names := CertNames(id, certs);
    if names != [] {
      JoinSnoc(", ", names, c.certificateName);
    } else {
      assert names + [c.certificateName] == [c.certificateName];
    }
  }

  /** A project of the employee appended to the project table adds its
      summary to the end of the experience column, after a blank when the
      employee already had projects. */
  lemma ExperienceAppended(
    e: EmployeeRecord,
    skills: seq<SkillRecord>,
    certs: seq<CertificationRecord>,
    projects: seq<ProjectRecord>,
    p: ProjectRecord)
    requires p.employeeId == e.employeeId
    ensures var before := AggregateEmployee(e, skills, certs, projects).experience;
            var after := AggregateEmployee(e, skills, certs, projects + [p]).experience;
            after == Appended(before, exists k :: 0 <= k < |projects| && projects[k].employeeId == e.employeeId, " ", p.experienceSummary)
  {
    var id := e.employeeId;
    SummariesSplit(id, projects, [p]);
    GroupsOfOneRow(id, SkillRecord(id, "", 0), CertificationRecord(id, ""), p);
    var sums := Summaries(id, projects);
    if sums != [] {
      JoinSnoc(" ", sums, p.experienceSummary);
    } else {
      assert sums + [p.experienceSummary] == [p.experienceSummary];
    }
  }

  // ---------------------------------------------------------------------
  // The labelled chunk (`build_employee_text`)
  // ---------------------------------------------------------------------

  /** The five labelled lines before `.strip()`. */
  function Lines(row: ProfileRow): seq<string> {
    [ "Role: " + row.role,
      "Primary Skill: " + row.primarySkill,
      "Skills: " + row.skills,
      "Certifications: " + row.certifications,
      "Experience: " + row.experience ]
  }

  /** `build_employee_text`: the lines joined by line breaks, with white
      space stripped at both ends. */
  function BuildEmployeeText(row: ProfileRow): string {
    Trim(Join("\n", Lines(row)), Python)
  }

  /** The first four lines and the bare `Experience:` label. */
  function Head(row: ProfileRow): seq<string> {
    Lines(row)[..4] + ["Experience:"]
  }

  /** Stripping touches only the experience value's trailing white space:
      the chunk is the four labelled lines, the `Experience:` label, and the
      space-prefixed experience text with trailing white space removed. */
  lemma ChunkShape(row: ProfileRow)
    ensures BuildEmployeeText(row) == Join("\n", Head(row)) + TrimEnd(" " + row.experience, Python)
  {
    var first4 := Lines(row)[..4];
    var tail := " " + row.experience;
    assert "Experience: " == "Experience:" + " ";
    assert "Experience: " + row.experience == "Experience:" + tail;
    assert Lines(row) == first4 + ["Experience:" + tail];
    JoinExtendLast("\n", first4, "Experience:", tail);
    var head := Join("\n", Head(row));
    JoinSnoc("\n", first4, "Experience:");
    assert head == Join("\n", first4) + "\n" + "Experience:";
    var role := first4[0];
    assert Join("\n", first4) == role + "\n" + Join("\n", first4[1..]);
    assert role[0] == 'R';
    assert Join("\n", first4)[0] == 'R';
    assert head[0] == 'R';
    VisibleAsciiNotSpace('R', Python);
    assert TrimStart(head + tail, Python) == head + tail;
    assert head[|head| - 1] == ':';
    VisibleAsciiNotSpace(':', Python);
    TrimEndAppend(head, tail, Python);
  }

  /** When no field holds a line break, the chunk reads as exactly five
      lines, labelled Role, Primary Skill, Skills, Certifications and
      Experience, in that order. */
  lemma ChunkLines(row: ProfileRow)
    requires '\n' !in row.role && '\n' !in row.primarySkill && '\n' !in row.skills
    requires '\n' !in row.certifications && '\n' !in row.experience
    ensures SplitOn(BuildEmployeeText(row), '\n') ==
      [ "Role: " + row.role,
        "Primary Skill: " + row.primarySkill,
        "Skills: " + row.skills,
        "Certifications: " + row.certifications,
        "Experience:" + TrimEnd(" " + row.experience, Python) ]
  {
    ChunkShape(row);
    var first4 := Lines(row)[..4];
    var last := "Experience:" + TrimEnd(" " + row.experience, Python);
    JoinExtendLast("\n", first4, "Experience:", TrimEnd(" " + row.experience, Python));
    assert Head(row) == first4 + ["Experience:"];
    var ps := first4 + [last];
    TrimEndSpec(" " + row.experience, Python);
    NoBreakIn("Role: ", row.role);
    NoBreakIn("Primary Skill: ", row.primarySkill);
    NoBreakIn("Skills: ", row.skills);
    NoBreakIn("Certifications: ", row.certifications);
    NoBreakIn("Experience:", TrimEnd(" " + row.experience, Python));
    assert "\n" == ['\n'];
    JoinSplitOn(ps, '\n');
  }

  lemma NoBreakIn(caption: string, value: string)
    requires '\n' !in caption && '\n' !in value
    ensures '\n' !in caption + value
  {
  }

  /** An employee with no project history gets the bare label `Experience:`
      as last line; one whose summary ends in a non-space character keeps
      `Experience: ` followed by the summary verbatim. */
  lemma ExperienceLine(row: ProfileRow)
    ensures row.experience == "" ==>
              BuildEmployeeText(row) == Join("\n", Head(row))
    ensures row.experience != "" && !IsSpace(row.experience[|row.experience| - 1], Python) ==>
              BuildEmployeeText(row) == Join("\n", Head(row)) + " " + row.experience
  {
    ChunkShape(row);
    var tail := " " + row.experience;
    if row.experience == "" {
      assert AllSpace(tail, Python);
      TrimEndUnique(tail, "", Python);
      assert Join("\n", Head(row)) + [] == Join("\n", Head(row));
    } else if !IsSpace(row.experience[|row.experience| - 1], Python) {
      TrimEndUnique(tail, tail, Python);
    }
  }

  // ---------------------------------------------------------------------
  // The upsert loop of `ingest`
  // ---------------------------------------------------------------------

  /** What the collection stores per id: document, embedding, role metadata. */
  datatype Entry = Entry(text: string, embedding: seq<real>, role: string)

  /** The collection after a run, and the run's success and failure counts. */
  datatype IngestReport = IngestReport(store: map<string, Entry>, successful: nat, failed: nat)

  /** What one iteration upserts: the id, the chunk and the role metadata. */
  datatype Doc = Doc(employeeId: string, text: string, role: string)

  function ToDoc(row: ProfileRow): Doc {
    Doc(row.employeeId, BuildEmployeeText(row), row.role)
  }

  function Docs(rows: seq<ProfileRow>): (docs: seq<Doc>)
    ensures |docs| == |rows|
  {
    seq(|rows|, i requires 0 <= i < |rows| => ToDoc(rows[i]))
  }

  /** The embedding provider is an opaque function of the text; `None` stands
      for any exception raised while embedding or upserting that document. */
  predicate Embedded(doc: Doc, embed: string -> Option<seq<real>>) {
    embed(doc.text).Some?
  }

  function EntryOf(doc: Doc, embed: string -> Option<seq<real>>): Entry
    requires Embedded(doc, embed)
  {
    Entry(doc.text, embed(doc.text).value, doc.role)
  }

  /** One iteration of the loop: on success the entry for the document's id
      is replaced and `successful` grows; on failure only `failed` grows. */
  function Step(rep: IngestReport, doc: Doc, embed: string -> Option<seq<real>>): IngestReport {
    if Embedded(doc, embed) then
      var updated := rep.store[doc.employeeId := EntryOf(doc, embed)];
      rep.(store := updated, successful := rep.successful + 1)
    else
      rep.(failed := rep.failed + 1)
  }

  /** The loop run over `docs` in order, starting from collection `store`. */
  function IngestDocs(docs: seq<Doc>, embed: string -> Option<seq<real>>, store: map<string, Entry>): IngestReport
    decreases |docs|
  {
    if docs == [] then IngestReport(store, 0, 0)
    else Step(IngestDocs(docs[..|docs| - 1], embed, store), docs[|docs| - 1], embed)
  }

  /** The ingestion loop over the aggregated rows. Every row is attempted: a
      failure is counted and the loop moves on, so the two counters always
      add up to the number of aggregated rows. */
  method Ingest(rows: seq<ProfileRow>, embed: string -> Option<seq<real>>, store: map<string, Entry>)
    returns (report: IngestReport)
    ensures report == IngestDocs(Docs(rows), embed, store)
    ensures report.successful + report.failed == |rows|
  {
    var docs := Docs(rows);
    var successful := 0;
    var failed := 0;
    var collection := store;
    for i := 0 to |rows|
      invariant IngestReport(collection, successful, failed) == IngestDocs(docs[..i], embed, store)
      invariant successful + failed == i
    {
      var text := BuildEmployeeText(rows[i]);
      var embedding := embed(text);
      if embedding.Some? {
        collection := collection[rows[i].employeeId := Entry(text, embedding.value, rows[i].role)];
        successful := successful + 1;
      } else {
        failed := failed + 1;
      }
      assert docs[..i + 1][..i] == docs[..i];
    }
    assert docs[..|rows|] == docs;
    report := IngestReport(collection, successful, failed);
  }

  /** The successful count is the number of documents whose embedding
      succeeded, wherever the failures fall: one failure never stops a later
      row. */
  lemma {:induction false} IngestCounts(docs: seq<Doc>, embed: string -> Option<seq<real>>, store: map<string, Entry>)
    ensures var rep := IngestDocs(docs, embed, store);
            && rep.successful == |set i | 0 <= i < |docs| && Embedded(docs[i], embed)|
            && rep.successful + rep.failed == |docs|
    decreases |docs|
  {
    if docs != [] {
      var n := |docs| - 1;
      var init := docs[..n];
      IngestCounts(init, embed, store);
      var before := set i | 0 <= i < n && Embedded(init[i], embed);
      var after := set i | 0 <= i < |docs| && Embedded(docs[i], embed);
      assert forall i :: 0 <= i < n ==> init[i] == docs[i];
      if Embedded(docs[n], embed) {
        assert after == before + {n};
      } else {
        assert after == before;
      }
    }
  }

  /** The entries a run writes, independent of the collection it starts from. */
  function Writes(docs: seq<Doc>, embed: string -> Option<seq<real>>): map<string, Entry> {
    IngestDocs(docs, embed, map[]).store
  }

  /** Upsert semantics: a run overlays its writes on the starting collection;
      ids the run does not write keep their entries. */
  lemma {:induction false} IngestOverlay(docs: seq<Doc>, embed: string -> Option<seq<real>>, store: map<string, Entry>)
    ensures IngestDocs(docs, embed, store).store == store + Writes(docs, embed)
    decreases |docs|
  {
    if docs != [] {
      var init := docs[..|docs| - 1];
      IngestOverlay(init, embed, store);
      IngestOverlay(init, embed, map[]);
      assert map[] + Writes(init, embed) == Writes(init, embed);
    }
  }

  /** Writes grow one document at a time. */
  lemma WritesSnoc(docs: seq<Doc>, embed: string -> Option<seq<real>>)
    requires docs != []
    ensures var last := docs[|docs| - 1];
            var wi := Writes(docs[..|docs| - 1], embed);
            Writes(docs, embed) ==
              if Embedded(last, embed) then wi[last.employeeId := EntryOf(last, embed)] else wi
  {
  }

  /** The ids a run writes are exactly the ids of documents that succeeded. */
  lemma {:induction false} WritesKeys(docs: seq<Doc>, embed: string -> Option<seq<real>>)
    ensures forall id :: id in Writes(docs, embed) <==>
              exists i :: 0 <= i < |docs| && Embedded(docs[i], embed) && docs[i].employeeId == id
    decreases |docs|
  {
    if docs != [] {
      var n := |docs| - 1;
      var init := docs[..n];
      WritesKeys(init, embed);
      WritesSnoc(docs, embed);
      var w, wi := Writes(docs, embed), Writes(init, embed);
      forall id
        ensures id in w <==> exists i :: 0 <= i < |docs| && Embedded(docs[i], embed) && docs[i].employeeId == id
      {
        if id in wi {
          var i :| 0 <= i < n && Embedded(init[i], embed) && init[i].employeeId == id;
          assert docs[i] == init[i];
        }
        if exists i :: 0 <= i < |docs| && Embedded(docs[i], embed) && docs[i].employeeId == id {
          var i :| 0 <= i < |docs| && Embedded(docs[i], embed) && docs[i].employeeId == id;
          if i < n {
            assert init[i] == docs[i];
          }
        }
      }
    }
  }

  /** Each written id holds the entry of the LAST successful document with
      that id: later upserts replace earlier ones. */
  lemma {:induction false} WritesLastWins(docs: seq<Doc>, embed: string -> Option<seq<real>>, i: nat)
    requires i < |docs| && Embedded(docs[i], embed)
    requires forall j :: i < j < |docs| && Embedded(docs[j], embed) ==> docs[j].employeeId != docs[i].employeeId
    ensures docs[i].employeeId in Writes(docs, embed)
    ensures Writes(docs, embed)[docs[i].employeeId] == EntryOf(docs[i], embed)
    decreases |docs|
  {
    var n := |docs| - 1;
    var init := docs[..n];
    WritesSnoc(docs, embed);
    if i < n {
      assert init[i] == docs[i];
      forall j | i < j < |init| && Embedded(init[j], embed)
        ensures init[j].employeeId != init[i].employeeId
      {
        assert init[j] == docs[j];
      }
      WritesLastWins(init, embed, i);
    }
  }

  /** Re-running the builder on unchanged data with the same embedding
      provider leaves the collection and the counts as they were. */
  lemma IngestIdempotent(docs: seq<Doc>, embed: string -> Option<seq<real>>, store: map<string, Entry>)
    ensures var first := IngestDocs(docs, embed, store);
            var second := IngestDocs(docs, embed, first.store);
            && second.store == first.store
            && second.successful == first.successful
            && second.failed == first.failed
  {
    var w := Writes(docs, embed);
    IngestOverlay(docs, embed, store);
    IngestOverlay(docs, embed, store + w);
    IngestCounts(docs, embed, store);
    IngestCounts(docs, embed, store + w);
    assert (store + w) + w == store + w by {
      assert ((store + w) + w).Keys == (store + w).Keys;
      forall k | k in (store + w).Keys
        ensures ((store + w) + w)[k] == (store + w)[k]
      {
      }
    }
  }
}
