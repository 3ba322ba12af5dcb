/** The resume endpoints: `upload_resume`, `generate_resume` and
    `download_resume`. Files, the PDF renderer and the clock are outside the
    model: the stored paths are strings, the generated document is the list
    of paragraphs ("story") handed to the renderer, and the time is given. */
module Resume {
  import opened Wrappers
  import opened Text
  import opened Forms
  import opened Users

  const UploadFolder: string := "uploads"
  const GeneratedFolder: string := "generated_resumes"

  // ---------------------------------------------------------------------------
  // Upload

  /** `filename.endswith((".pdf", ".docx"))`: the test is case-sensitive. */
  predicate AcceptedResumeName(filename: string) {
    EndsWith(filename, ".pdf") || EndsWith(filename, ".docx")
  }

  /** `os.path.join(UPLOAD_FOLDER, f"user_{user_id}_{filename}")`. */
  function UploadPath(userId: nat, filename: string): string {
    UploadFolder + "/" + "user_" + NatToString(userId) + "_" + filename
  }

  datatype UploadOutcome =
    | NoFilePart            // "No file part"
    | NoSelectedFile        // "No selected file"
    | InvalidFileFormat     // "Invalid file format"
    | UploadDatabaseError   // "Database error: …"
    | Uploaded(path: string)
  {
    function Status(): int {
      match this
      case Uploaded(_) => 200
      case UploadDatabaseError => 500
      case _ => 400
    }
  }

  datatype Upload = Upload(outcome: UploadOutcome, table: Table)

  /** `UPDATE dbo.Users1 SET ResumePath=? WHERE UserID=?`. */
  function SetResumePath(table: Table, userId: nat, path: string): (t: Table)
    ensures t.Keys == table.Keys
    ensures forall e :: e in table && table[e].userId == userId ==> t[e] == table[e].(resumePath := Some(path))
    ensures forall e :: e in table && table[e].userId != userId ==> t[e] == table[e]
  {
    map e | e in table :: if table[e].userId == userId then table[e].(resumePath := Some(path)) else table[e]
  }

  /** Uploading again for the same user replaces the recorded path: only the
      latest upload is remembered. */
  lemma SetResumePathLastWins(table: Table, userId: nat, first: string, second: string)
    ensures SetResumePath(SetResumePath(table, userId, first), userId, second) == SetResumePath(table, userId, second)
  {
    var a := SetResumePath(SetResumePath(table, userId, first), userId, second);
    var b := SetResumePath(table, userId, second);
    assert forall e :: e in a ==> a[e] == b[e];
  }

  /** Uploads of two different users do not interfere: their updates commute. */
  lemma SetResumePathCommutes(table: Table, u1: nat, p1: string, u2: nat, p2: string)
    requires u1 != u2
    ensures SetResumePath(SetResumePath(table, u1, p1), u2, p2) == SetResumePath(SetResumePath(table, u2, p2), u1, p1)
  {
    var a := SetResumePath(SetResumePath(table, u1, p1), u2, p2);
    var b := SetResumePath(SetResumePath(table, u2, p2), u1, p1);
    assert forall e :: e in a ==> a[e] == b[e];
  }

  /** `upload_resume`. `file` is the name of the uploaded `resume` part, absent
      when the request has none; `dbOk` is false when the update raises. */
  function UploadResume(table: Table, userId: nat, file: Option<string>, dbOk: bool): (r: Upload)
    ensures r.outcome.Uploaded? <==> file.Some? && file.value != "" && AcceptedResumeName(file.value) && dbOk
    ensures r.outcome.Uploaded? ==>
      r.outcome.path == UploadPath(userId, file.value) && r.table == SetResumePath(table, userId, r.outcome.path)
    ensures !r.outcome.Uploaded? ==> r.table == table
    ensures r.outcome == NoSelectedFile <==> file == Some("")
    ensures r.outcome == InvalidFileFormat <==> file.Some? && file.value != "" && !AcceptedResumeName(file.value)
    ensures r.outcome == NoFilePart <==> file.None?
    ensures r.outcome == UploadDatabaseError <==> file.Some? && file.value != "" && AcceptedResumeName(file.value) && !dbOk
  {
    match file
    case None => Upload(NoFilePart, table)
    case Some(name) =>
      if name == "" then Upload(NoSelectedFile, table)
      else if !AcceptedResumeName(name) then Upload(InvalidFileFormat, table)
      else if !dbOk then Upload(UploadDatabaseError, table)
      else
        var path := UploadPath(userId, name);
        Upload(Uploaded(path), SetResumePath(table, userId, path))
  }

  /** The stored path keeps the accepted extension and sits in the upload
      folder. */
  lemma UploadPathShape(userId: nat, filename: string)
    requires AcceptedResumeName(filename)
    ensures AcceptedResumeName(UploadPath(userId, filename))
    ensures UploadPath(userId, filename)[..|UploadFolder| + 1] == UploadFolder + "/"
  {
    var p := UploadPath(userId, filename);
    var pre := UploadFolder + "/" + "user_" + NatToString(userId) + "_";
    assert p == pre + filename;
    assert p[|p| - |filename|..] == filename;
    if EndsWith(filename, ".pdf") {
      assert p[|p| - 4..] == filename[|filename| - 4..];
    } else {
      assert p[|p| - 5..] == filename[|filename| - 5..];
    }
  }

  lemma UnderscoreAfter(a: string, x: string)
    ensures |a| < |a + "_" + x| && (a + "_" + x)[|a|] == '_'
    ensures forall i :: 0 <= i < |a| ==> (a + "_" + x)[i] == a[i]
  {
  }

  /** Two digit strings followed by an underscore start two equal strings only
      if they are equal. */
  lemma {:induction false} DigitsBeforeUnderscore(a: string, x: string, b: string, y: string)
    requires forall i :: 0 <= i < |a| ==> IsDigit(a[i])
    requires forall i :: 0 <= i < |b| ==> IsDigit(b[i])
    requires a + "_" + x == b + "_" + y
    ensures a == b && x == y
  {
    var s := a + "_" + x;
    if |a| != |b| {
      UnderscoreAfter(a, x);
      UnderscoreAfter(b, y);
      assert false;
    }
    assert a == s[..|a|] == b;
    assert x == s[|a| + 1..] == y;
  }

  /** Different users or different file names never share a stored path. */
  lemma UploadPathInjective(id1: nat, f1: string, id2: nat, f2: string)
    requires UploadPath(id1, f1) == UploadPath(id2, f2)
    ensures id1 == id2 && f1 == f2
  {
    var pre := UploadFolder + "/" + "user_";
    var s1 := NatToString(id1) + "_" + f1;
    var s2 := NatToString(id2) + "_" + f2;
    assert UploadPath(id1, f1) == pre + s1;
    assert UploadPath(id2, f2) == pre + s2;
    assert s1 == (pre + s1)[|pre|..];
    assert s2 == (pre + s2)[|pre|..];
    DigitsBeforeUnderscore(NatToString(id1), f1, NatToString(id2), f2);
    NatToStringInjective(id1, id2);
  }

  /** A concrete case: an executable is refused. */
  lemma UploadRefusesExecutable(table: Table, name: string)
    requires name == "resume.exe"
    ensures UploadResume(table, 7, Some(name), true).outcome == InvalidFileFormat
  {
    assert name[6..] != ".pdf";
    assert name[5..] != ".docx";
  }

  /** A concrete case: a PDF from user 7 is stored under its prefixed name. */
  lemma UploadStoresPdf(table: Table, name: string)
    requires name == "resume.pdf"
    ensures UploadResume(table, 7, Some(name), true).outcome == Uploaded("uploads/user_7_resume.pdf")
  {
    assert name[6..] == ".pdf";
    assert NatToString(7) == "7";
  }

  // ---------------------------------------------------------------------------
  // Generation: the story handed to the renderer

  /** The fields `generate_resume` insists on, in the order it checks them. */
  const ResumeFields: seq<string> :=
    ["firstName", "surname", "email", "mobile", "education", "location", "history", "certifications"]

  /** The form holds every field the layout reads without a default. */
  predicate HasResumeFields(form: Form) {
    forall j :: 0 <= j < |ResumeFields| ==> ResumeFields[j] in form
  }

  /** The paragraph styles the layout uses: `h1`, `h2`, `Normal`, and the
      one-point `LineSeparator` style of the rule under each heading. */
  datatype Style = Heading1 | Heading2 | Normal | LineSeparator

  /** A story element: a paragraph, or `Spacer(1, 12)`. */
  datatype Flowable = Para(style: Style, text: string) | Gap

  /** The text of the rule under each section heading: 68 underscores. */
  const RuleText: string := "____________________________________________________________________"

  /** A section: heading, rule, its paragraphs, and a gap. */
  function Section(title: string, paragraphs: seq<Flowable>): seq<Flowable> {
    [Para(Heading2, title), Para(LineSeparator, RuleText)] + paragraphs + [Gap]
  }

  function NormalParas(texts: seq<string>): (ps: seq<Flowable>)
    ensures |ps| == |texts|
    ensures forall i :: 0 <= i < |texts| ==> ps[i] == Para(Normal, texts[i])
  {
    seq(|texts|, i requires 0 <= i < |texts| => Para(Normal, texts[i]))
  }

  /** `f"{first} {middle or ''} {surname}".strip()`. */
  function FullName(first: string, middle: Option<string>, surname: string): string {
    Strip(first + " " + middle.GetOr("") + " " + surname)
  }

  /** The employment history section: one paragraph per line, empty lines
      included; left out when the history is empty. */
  function HistorySection(history: string): seq<Flowable> {
    if history == "" then [] else Section("Employment History", NormalParas(Split(history, '\n')))
  }

  /** `f"- {item.strip()}"`. */
  function Bullet(item: string): string {
    "- " + Strip(item)
  }

  /** One bullet for each comma-separated item. */
  function Bullets(items: seq<string>): (bs: seq<string>)
    ensures |bs| == |items|
    ensures forall i :: 0 <= i < |items| ==> bs[i] == Bullet(items[i])
  {
    seq(|items|, i requires 0 <= i < |items| => Bullet(items[i]))
  }

  /** The certifications section: one bullet per comma-separated item; left
      out when the field is empty. */
  function CertificationSection(certifications: string): seq<Flowable> {
    if certifications == "" then []
    else Section("Certifications", NormalParas(Bullets(Split(certifications, ','))))
  }

  /** The top of the story: the full name as title, the contact line, a gap. */
  function Masthead(form: Form): seq<Flowable>
    requires "firstName" in form && "surname" in form
    requires "email" in form && "mobile" in form && "location" in form
  {
    var middle := if "middleName" in form then Some(form["middleName"]) else None;
    [ Para(Heading1, FullName(form["firstName"], middle, form["surname"])),
      Para(Normal, form["email"] + " | " + form["mobile"] + " | " + form["location"]),
      Gap ]
  }

  /** The story `generate_resume` builds from a form. */
  function Story(form: Form): seq<Flowable>
    requires HasResumeFields(form)
  {
    assert ResumeFields[0] == "firstName" && ResumeFields[1] == "surname" && ResumeFields[2] == "email";
    assert ResumeFields[3] == "mobile" && ResumeFields[4] == "education" && ResumeFields[5] == "location";
    assert ResumeFields[6] == "history" && ResumeFields[7] == "certifications";
    Masthead(form)
    + Section("Education", [Para(Normal, form["education"])])
    + HistorySection(form["history"])
    + CertificationSection(form["certifications"])
  }

  /** The `h2` headings of a story, in order. */
  function Headings(story: seq<Flowable>): seq<string> {
    if story == [] then []
    else (if story[0].Para? && story[0].style == Heading2 then [story[0].text] else []) + Headings(story[1..])
  }

  lemma {:induction false} HeadingsAppend(a: seq<Flowable>, b: seq<Flowable>)
    ensures Headings(a + b) == Headings(a) + Headings(b)
    decreases |a|
  {
    if a != [] {
      assert (a + b)[1..] == a[1..] + b;
      HeadingsAppend(a[1..], b);
    } else {
      assert a + b == b;
    }
  }

  lemma {:induction false} NormalParasHaveNoHeading(texts: seq<string>)
    ensures Headings(NormalParas(texts)) == []
    decreases |texts|
  {
    if texts != [] {
      assert NormalParas(texts)[1..] == NormalParas(texts[1..]);
      NormalParasHaveNoHeading(texts[1..]);
    }
  }

  /** A section of plain paragraphs contributes exactly its own title. */
  lemma SectionHeadings(title: string, texts: seq<string>)
    ensures Headings(Section(title, NormalParas(texts))) == [title]
  {
    var head := [Para(Heading2, title), Para(LineSeparator, RuleText)];
    HeadingsAppend(head + NormalParas(texts), [Gap]);
    HeadingsAppend(head, NormalParas(texts));
    NormalParasHaveNoHeading(texts);
    assert Headings(head) == [title] by {
      assert head[1..] == [Para(LineSeparator, RuleText)];
      assert head[1..][1..] == [];
    }
    assert Headings([Gap]) == [] by { assert [Gap][1..] == []; }
  }

  /** The history section has its heading exactly when the field is non-empty. */
  lemma HistoryHeadings(history: string)
    ensures Headings(HistorySection(history)) == if history != "" then ["Employment History"] else []
  {
    if history != "" {
      SectionHeadings("Employment History", Split(history, '\n'));
    }
  }

  /** The certifications section has its heading exactly when the field is non-empty. */
  lemma CertificationHeadings(certifications: string)
    ensures Headings(CertificationSection(certifications)) == if certifications != "" then ["Certifications"] else []
  {
    if certifications != "" {
      SectionHeadings("Certifications", Bullets(Split(certifications, ',')));
    }
  }

  /** The headings a masthead, an education section and the two optional
      sections contribute, in order. */
  lemma HeadingsOfParts(top: seq<Flowable>, education: string, history: string, certifications: string)
    requires Headings(top) == []
    ensures Headings(top + Section("Education", [Para(Normal, education)])
                     + HistorySection(history) + CertificationSection(certifications))
         == ["Education"]
            + (if history != "" then ["Employment History"] else [])
            + (if certifications != "" then ["Certifications"] else [])
  {
    var ed := Section("Education", [Para(Normal, education)]);
    var hs, cs := HistorySection(history), CertificationSection(certifications);
    HeadingsAppend(top + ed + hs, cs);
    HeadingsAppend(top + ed, hs);
    HeadingsAppend(top, ed);
    assert NormalParas([education]) == [Para(Normal, education)];
    SectionHeadings("Education", [education]);
    HistoryHeadings(history);
    CertificationHeadings(certifications);
  }

  lemma MastheadHasNoHeading(form: Form)
    requires "firstName" in form && "surname" in form
    requires "email" in form && "mobile" in form && "location" in form
    ensures |Masthead(form)| == 3 && Headings(Masthead(form)) == []
  {
    var top := Masthead(form);
    assert Headings(top[2..]) == [] by { assert top[2..][1..] == []; }
    assert top[1..][1..] == top[2..];
  }

  /** The story's length: seven elements for the masthead and education, and
      four more than the number of separators for each section present. */
  lemma StoryLength(form: Form)
    requires HasResumeFields(form)
    requires "history" in form && "certifications" in form
    ensures var history := form["history"];
            var certifications := form["certifications"];
            |Story(form)| == 7 + (if history == "" then 0 else Occurrences(history, '\n') + 4)
                               + (if certifications == "" then 0 else Occurrences(certifications, ',') + 4)
  {
    assert ResumeFields[0] == "firstName" && ResumeFields[1] == "surname" && ResumeFields[2] == "email";
    assert ResumeFields[3] == "mobile" && ResumeFields[5] == "location";
    var history, certifications := form["history"], form["certifications"];
    MastheadHasNoHeading(form);
    if history != "" {
      HistorySectionKeepsLines(history);
    }
    if certifications != "" {
      CertificationSectionBullets(certifications);
    }
  }

  /** The layout `generate_resume` promises: after the masthead comes the
      Education section; the Employment History and Certifications sections
      follow in that order, each present exactly when its field is non-empty,
      with one paragraph per line or item. */
  lemma StoryLayout(form: Form)
    requires HasResumeFields(form)
    // implied by `HasResumeFields`, spelled out for the postcondition
    requires "history" in form && "certifications" in form
    ensures var story := Story(form);
            var history := form["history"];
            var certifications := form["certifications"];
            && Headings(story) == ["Education"]
                 + (if history != "" then ["Employment History"] else [])
                 + (if certifications != "" then ["Certifications"] else [])
            && |story| == 7 + (if history == "" then 0 else Occurrences(history, '\n') + 4)
                            + (if certifications == "" then 0 else Occurrences(certifications, ',') + 4)
  {
    assert ResumeFields[0] == "firstName" && ResumeFields[1] == "surname" && ResumeFields[2] == "email";
    assert ResumeFields[3] == "mobile" && ResumeFields[4] == "education" && ResumeFields[5] == "location";
    var parts := Masthead(form) + Section("Education", [Para(Normal, form["education"])])
                 + HistorySection(form["history"]) + CertificationSection(form["certifications"]);
    assert Story(form) == parts;
    MastheadHasNoHeading(form);
    HeadingsOfParts(Masthead(form), form["education"], form["history"], form["certifications"]);
    StoryLength(form);
  }

  /** Without a middle name the full name keeps a double inner space; only the
      outer whitespace is removed. */
  lemma FullNameWithoutMiddle(first: string, surname: string)
    requires first != [] && !IsSpace(first[0]) && !IsSpace(first[|first| - 1])
    requires surname != [] && !IsSpace(surname[0]) && !IsSpace(surname[|surname| - 1])
    ensures FullName(first, None, surname) == first + "  " + surname
    ensures FullName(first, Some(""), surname) == first + "  " + surname
  {
    var t := first + "  " + surname;
    assert t[0] == first[0];
    assert t[|t| - 1] == surname[|surname| - 1];
    assert NoOuterSpace(t);
    assert first + " " + "" + " " + surname == t;
    assert [] + t + [] == t;
    StripRemovesExactlyTheMargins([], t, []);
  }

  /** A missing first name still leaves the surname, with the margins gone. */
  lemma FullNameStripsOuterSpace(surname: string)
    requires NoOuterSpace(surname)
    ensures FullName("", None, surname) == surname
  {
    assert "" + " " + "" + " " + surname == "  " + surname + [];
    StripRemovesExactlyTheMargins("  ", surname, []);
  }

  /** The history section holds the history line by line: as many paragraphs
      as lines, none containing a line break, and joined back with line
      breaks they give the history text. */
  lemma HistorySectionKeepsLines(history: string)
    requires history != ""
    ensures var sec := HistorySection(history);
            var lines := Split(history, '\n');
            && |sec| == Occurrences(history, '\n') + 4
            && sec[0] == Para(Heading2, "Employment History")
            && (forall i :: 0 <= i < |lines| ==> sec[i + 2] == Para(Normal, lines[i]) && '\n' !in lines[i])
            && Join(lines, '\n') == history
  {
    var lines := Split(history, '\n');
    SplitCount(history, '\n');
    JoinSplit(history, '\n');
    SectionLayout("Employment History", NormalParas(lines));
  }

  /** The certifications section holds one bullet per comma-separated item:
      the item with its outer whitespace removed, behind "- ". */
  lemma CertificationSectionBullets(certifications: string)
    requires certifications != ""
    ensures var sec := CertificationSection(certifications);
            var items := Split(certifications, ',');
            && |sec| == Occurrences(certifications, ',') + 4
            && sec[0] == Para(Heading2, "Certifications")
            && (forall i :: 0 <= i < |items| ==>
                  && sec[i + 2] == Para(Normal, "- " + Strip(items[i]))
                  && NoOuterSpace(Strip(items[i])))
            && Join(items, ',') == certifications
  {
    var items := Split(certifications, ',');
    SplitCount(certifications, ',');
    JoinSplit(certifications, ',');
    SectionLayout("Certifications", NormalParas(Bullets(items)));
  }

  /** Where a section puts its heading and its paragraphs. */
  lemma SectionLayout(title: string, paragraphs: seq<Flowable>)
    ensures var sec := Section(title, paragraphs);
            && |sec| == |paragraphs| + 3
            && sec[0] == Para(Heading2, title)
            && sec[1] == Para(LineSeparator, RuleText)
            && (forall i :: 0 <= i < |paragraphs| ==> sec[i + 2] == paragraphs[i])
            && sec[|sec| - 1] == Gap
  {
  }

  /** A two-line history gives two paragraphs, one per line, under the
      heading (for instance "Job A\nJob B"). */
  lemma HistoryOfTwoLines(a: string, b: string)
    requires '\n' !in a && '\n' !in b
    ensures HistorySection(a + "\n" + b) ==
      Section("Employment History", [Para(Normal, a), Para(Normal, b)])
  {
    assert a + "\n" + b == a + ['\n'] + b;
    SplitTwo(a, '\n', b);
    assert NormalParas([a, b]) == [Para(Normal, a), Para(Normal, b)];
  }

  /** Two comma-separated certifications give two bullets with the padding
      after the comma removed (for instance "X, Y" gives "- X" and "- Y"). */
  lemma CertificationsOfTwoItems(a: string, pad: string, b: string)
    requires NoOuterSpace(a) && ',' !in a
    requires AllSpace(pad) && NoOuterSpace(b) && ',' !in b
    ensures CertificationSection(a + "," + pad + b) ==
      Section("Certifications", [Para(Normal, "- " + a), Para(Normal, "- " + b)])
  {
    SpacesAreNoComma(pad, b);
    assert a + "," + pad + b == a + [','] + (pad + b);
    SplitTwo(a, ',', pad + b);
    BulletsOfTwo(a, pad, b);
  }

  lemma SpacesAreNoComma(pad: string, b: string)
    requires AllSpace(pad) && ',' !in b
    ensures ',' !in pad + b
  {
    forall k | 0 <= k < |pad + b| ensures (pad + b)[k] != ',' {
      if k < |pad| { assert IsSpace(pad[k]); } else { assert (pad + b)[k] == b[k - |pad|]; }
    }
  }

  lemma BulletsOfTwo(a: string, pad: string, b: string)
    requires NoOuterSpace(a) && AllSpace(pad) && NoOuterSpace(b)
    ensures NormalParas(Bullets([a, pad + b])) == [Para(Normal, "- " + a), Para(Normal, "- " + b)]
  {
    StripKeepsBareWord(a);
    StripDropsLeadingSpace(pad, b);
    var x, y := Bullet(a), Bullet(pad + b);
    assert x == "- " + a && y == "- " + b;
    BulletsOfPair(a, pad + b);
    ParasOfPair(x, y);
  }

  lemma BulletsOfPair(u: string, v: string)
    ensures Bullets([u, v]) == [Bullet(u), Bullet(v)]
  {
    var bullets := Bullets([u, v]);
    assert bullets[0] == Bullet(u) && bullets[1] == Bullet(v);
  }

  lemma ParasOfPair(x: string, y: string)
    ensures NormalParas([x, y]) == [Para(Normal, x), Para(Normal, y)]
  {
  }

  lemma StripKeepsBareWord(x: string)
    requires NoOuterSpace(x)
    ensures Strip(x) == x
  {
    assert x == [] + x + [];
    StripRemovesExactlyTheMargins([], x, []);
  }

  lemma StripDropsLeadingSpace(pad: string, y: string)
    requires AllSpace(pad) && NoOuterSpace(y)
    ensures Strip(pad + y) == y
  {
    assert pad + y == pad + y + [];
    StripRemovesExactlyTheMargins(pad, y, []);
  }

  // ---------------------------------------------------------------------------
  // Generation: the endpoint

  /** `os.path.join(GENERATED_FOLDER, f"resume_{user_id}_{int(time.time())}.pdf")`. */
  function GeneratedPath(userId: nat, seconds: nat): string {
    GeneratedFolder + "/" + "resume_" + NatToString(userId) + "_" + NatToString(seconds) + ".pdf"
  }

  /** Generated names differ across users and across seconds; two requests for
      one user within the same second get the same name. */
  lemma GeneratedPathInjective(id1: nat, t1: nat, id2: nat, t2: nat)
    requires GeneratedPath(id1, t1) == GeneratedPath(id2, t2)
    ensures id1 == id2 && t1 == t2
  {
    var pre := GeneratedFolder + "/" + "resume_";
    var a1 := NatToString(id1);
    var a2 := NatToString(id2);
    var b1 := NatToString(t1);
    var b2 := NatToString(t2);
    var p1 := GeneratedPath(id1, t1);
    var p2 := GeneratedPath(id2, t2);
    assert p1 == pre + (a1 + "_" + b1) + ".pdf";
    assert p2 == pre + (a2 + "_" + b2) + ".pdf";
    assert a1 + "_" + b1 == p1[|pre|..|p1| - 4];
    assert a2 + "_" + b2 == p2[|pre|..|p2| - 4];
    DigitsBeforeUnderscore(a1, b1, a2, b2);
    NatToStringInjective(id1, id2);
    NatToStringInjective(t1, t2);
  }

  datatype GenerateOutcome =
    | MissingResumeField(field: string)  // "Missing required field: …"
    | RenderFailed                       // "An error occurred while generating the resume: …"
    | GenerateDatabaseError              // "Database error during resume update: …"
    | Generated(path: string, story: seq<Flowable>)
  {
    function Status(): int {
      match this
      case MissingResumeField(_) => 400
      case Generated(_, _) => 200
      case _ => 500
    }
  }

  datatype Generation = Generation(outcome: GenerateOutcome, table: Table)

  /** `UPDATE dbo.Users1 SET GeneratedResumePath=? WHERE UserID=?`. */
  function SetGeneratedPath(table: Table, userId: nat, path: string): (t: Table)
    ensures t.Keys == table.Keys
    ensures forall e :: e in table && table[e].userId == userId ==> t[e] == table[e].(generatedResumePath := Some(path))
    ensures forall e :: e in table && table[e].userId != userId ==> t[e] == table[e]
  {
    map e | e in table :: if table[e].userId == userId then table[e].(generatedResumePath := Some(path)) else table[e]
  }

  /** Generating again for the same user replaces the recorded path. */
  lemma SetGeneratedPathLastWins(table: Table, userId: nat, first: string, second: string)
    ensures SetGeneratedPath(SetGeneratedPath(table, userId, first), userId, second) == SetGeneratedPath(table, userId, second)
  {
    var a := SetGeneratedPath(SetGeneratedPath(table, userId, first), userId, second);
    var b := SetGeneratedPath(table, userId, second);
    assert forall e :: e in a ==> a[e] == b[e];
  }

  /** Generating and uploading touch different columns: in either order they
      leave the same table. */
  lemma GeneratedAndUploadedCommute(table: Table, u1: nat, generated: string, u2: nat, uploaded: string)
    ensures SetGeneratedPath(SetResumePath(table, u2, uploaded), u1, generated)
         == SetResumePath(SetGeneratedPath(table, u1, generated), u2, uploaded)
  {
    var a := SetGeneratedPath(SetResumePath(table, u2, uploaded), u1, generated);
    var b := SetResumePath(SetGeneratedPath(table, u1, generated), u2, uploaded);
    assert forall e :: e in a ==> a[e] == b[e];
  }

  /** `generate_resume`. `seconds` is `int(time.time())`; `renderOk` is false
      when building the PDF raises, `dbOk` when the update raises. The
      handler's check for an empty path never fires: the path always has a
      folder and a name. */
  function GenerateResume(table: Table, userId: nat, form: Form, seconds: nat, renderOk: bool, dbOk: bool): (r: Generation)
    ensures r.outcome.MissingResumeField? <==> !HasResumeFields(form)
    ensures r.outcome.MissingResumeField? ==> r.outcome == MissingResumeField(MissingField(ResumeFields, form).value)
    ensures r.outcome.Generated? <==> HasResumeFields(form) && renderOk && dbOk
    ensures r.outcome == RenderFailed <==> HasResumeFields(form) && !renderOk
    ensures r.outcome == GenerateDatabaseError <==> HasResumeFields(form) && renderOk && !dbOk
    ensures r.outcome.Generated? ==>
      && r.outcome.path == GeneratedPath(userId, seconds)
      && r.outcome.story == Story(form)
      && r.table == SetGeneratedPath(table, userId, r.outcome.path)
    ensures !r.outcome.Generated? ==> r.table == table
  {
    match MissingField(ResumeFields, form)
    case Some(field) => Generation(MissingResumeField(field), table)
    case None =>
      var path := GeneratedPath(userId, seconds);
      if !renderOk then Generation(RenderFailed, table)
      else if !dbOk then Generation(GenerateDatabaseError, table)
      else Generation(Generated(path, Story(form)), SetGeneratedPath(table, userId, path))
  }

  // ---------------------------------------------------------------------------
  // Download

  /** `name` is the last '/'-separated component of `path`: it holds no '/',
      ends the path, and is the whole path or follows a '/'. */
  predicate IsLastComponent(path: string, name: string) {
    && '/' !in name
    && EndsWith(path, name)
    && (|name| == |path| || path[|path| - |name| - 1] == '/')
  }

  /** A path has at most one last component. */
  lemma LastComponentUnique(path: string, a: string, b: string)
    requires IsLastComponent(path, a) && IsLastComponent(path, b)
    ensures a == b
  {
    assert |a| == |b|;
    assert a == path[|path| - |a|..] == b;
  }

  /** `os.path.basename`: the text after the last '/'. */
  function BaseName(path: string): (name: string)
    ensures IsLastComponent(path, name)
  {
    var parts := Split(path, '/');
    JoinSplit(path, '/');
    LastPieceEndsJoin(parts, '/');
    parts[|parts| - 1]
  }

  lemma {:induction false} LastPieceEndsJoin(parts: seq<string>, sep: char)
    requires |parts| >= 1
    ensures EndsWith(Join(parts, sep), parts[|parts| - 1])
    ensures |parts| == 1 ==> Join(parts, sep) == parts[0]
    ensures |parts| > 1 ==>
      |Join(parts, sep)| > |parts[|parts| - 1]|
      && Join(parts, sep)[|Join(parts, sep)| - |parts[|parts| - 1]| - 1] == sep
    decreases |parts|
  {
    if |parts| > 1 {
      LastPieceEndsJoin(parts[1..], sep);
      var j := Join(parts[1..], sep);
      var whole := parts[0] + [sep] + j;
      assert Join(parts, sep) == whole;
      assert parts[1..][|parts[1..]| - 1] == parts[|parts| - 1];
      var last := parts[|parts| - 1];
      assert whole[|whole| - |last|..] == j[|j| - |last|..];
      if |parts| == 2 {
        assert j == last;
        assert whole[|whole| - |last| - 1] == sep;
      } else {
        assert whole[|whole| - |last| - 1] == j[|j| - |last| - 1];
      }
    }
  }

  /** `os.path.join(root, recorded)`: an absolute second part replaces the
      root; otherwise a '/' is put between them unless the root is empty or
      already ends in one. */
  function JoinPath(root: string, recorded: string): (p: string)
    ensures |recorded| > 0 && recorded[0] == '/' ==> p == recorded
    ensures !(|recorded| > 0 && recorded[0] == '/') ==>
      && |root| <= |p| && p[..|root|] == root
      && EndsWith(p, recorded)
      && (|p| == |root| + |recorded| + 1 <==> root != "" && root[|root| - 1] != '/')
      && (|p| == |root| + |recorded| + 1 || |p| == |root| + |recorded|)
      && (|p| == |root| + |recorded| + 1 ==> p[|root|] == '/')
  {
    if |recorded| > 0 && recorded[0] == '/' then recorded
    else
      var p := if root == "" || root[|root| - 1] == '/' then root + recorded else root + "/" + recorded;
      assert p[|p| - |recorded|..] == recorded;
      p
  }

  /** The joined path ends in the same component as the recorded one. */
  lemma BaseNameOfJoin(root: string, recorded: string)
    requires recorded != ""
    ensures BaseName(JoinPath(root, recorded)) == BaseName(recorded)
  {
    var p := JoinPath(root, recorded);
    var name := BaseName(recorded);
    if !(recorded[0] == '/') {
      assert p[|p| - |recorded|..] == recorded;
      assert p[|p| - |name|..] == recorded[|recorded| - |name|..];
      if |name| < |recorded| {
        assert p[|p| - |name| - 1] == recorded[|recorded| - |name| - 1];
      } else if |p| > |recorded| {
        assert p[|p| - |name| - 1] == p[|root| + |p| - |root| - |recorded| - 1];
        if |p| == |root| + |recorded| {
          assert p[|root| - 1] == root[|root| - 1];
        }
      }
      assert IsLastComponent(p, name);
      LastComponentUnique(p, BaseName(p), name);
    }
  }

  datatype DownloadOutcome =
    | ResumeNotRecorded     // 404 "Resume file not found."
    | ResumeMissingOnDisk   // 404 "Resume file not found on the server."
    | DownloadFailed        // 500 "An error occurred while downloading the resume."
    | SendPdf(path: string, downloadName: string)
  {
    function Status(): int {
      match this
      case ResumeNotRecorded => 404
      case ResumeMissingOnDisk => 404
      case DownloadFailed => 500
      case SendPdf(_, _) => 200
    }
  }

  /** `download_resume`. `queryOk` is false when the path query raises;
      `recorded` is the user's `GeneratedResumePath` (absent when there is no
      row or the column is null); `onDisk` is what `os.path.exists` reports;
      `root` is the application root. */
  function DownloadResume(queryOk: bool, recorded: Option<string>, root: string, onDisk: bool): (r: DownloadOutcome)
    ensures r == DownloadFailed <==> !queryOk
    ensures r == ResumeNotRecorded <==> queryOk && (recorded.None? || recorded.value == "")
    ensures r == ResumeMissingOnDisk <==> queryOk && recorded.Some? && recorded.value != "" && !onDisk
    ensures r.SendPdf? <==> queryOk && recorded.Some? && recorded.value != "" && onDisk
    ensures r.SendPdf? ==>
      && r.path == JoinPath(root, recorded.value)
      && IsLastComponent(r.path, r.downloadName)
      && IsLastComponent(recorded.value, r.downloadName)
  {
    if !queryOk then DownloadFailed
    else if recorded.None? || recorded.value == "" then ResumeNotRecorded
    else if !onDisk then ResumeMissingOnDisk
    else
      var path := JoinPath(root, recorded.value);
      BaseNameOfJoin(root, recorded.value);
      SendPdf(path, BaseName(path))
  }
}
