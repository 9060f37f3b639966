/**
 * DicomManager: holds the patients found in a DICOM directory or read from
 * a saved index, keyed by name. New images are sorted into patient, study
 * and series by name, creating each only when absent; the index is saved
 * as nested XML and read back by a SAX handler; any failure discards all
 * patients. Files and XML text are left to the caller: a saved index is its
 * sequence of element events, and whether a file opens or exists is a
 * parameter.
 */
module DicomManagers {
  import opened Wrappers
  import opened DicomIndex

  /** What the directory scan reports for one image. */
  datatype ImageData = ImageData(patientID: string, studyID: string, seriesID: string, fileName: string, zPosition: real)

  /** What the manager emits at the end of an operation. */
  datatype Signal = Finished | Failed

  // ---------------------------------------------------------------------------
  // Finding by name
  // ---------------------------------------------------------------------------

  /** The position of the first name equal to `n`, if any. */
  function FirstIndex(names: seq<string>, n: string): (r: Option<nat>)
    ensures r.Some? ==> r.value < |names| && names[r.value] == n && n !in names[..r.value]
    ensures r.None? <==> n !in names
    decreases |names|
  {
    if names == [] then None
    else if names[0] == n then Some(0)
    else
      match FirstIndex(names[1..], n)
      case None => None
      case Some(i) =>
        assert names[..i + 1] == [names[0]] + names[1..][..i];
        Some(i + 1)
  }

  /** The first position is the only one where `n` occurs with no earlier occurrence. */
  lemma FirstIndexIs(names: seq<string>, n: string, i: nat)
    requires i < |names| && names[i] == n && n !in names[..i]
    ensures FirstIndex(names, n) == Some(i)
  {
    assert names[i] in names;
    var r := FirstIndex(names, n).value;
    assert forall k :: 0 <= k < i ==> names[..i][k] == names[k];
    assert forall k :: 0 <= k < r ==> names[..r][k] == names[k];
  }

  /** Appending a name changes the first position of `n` only when `n` was absent. */
  lemma FirstIndexAppend(names: seq<string>, x: string, n: string)
    ensures FirstIndex(names + [x], n)
            == if n in names then FirstIndex(names, n) else if x == n then Some(|names|) else None
  {
    var r := FirstIndex(names, n);
    if n in names {
      assert (names + [x])[..r.value] == names[..r.value];
      FirstIndexIs(names + [x], n, r.value);
    } else if x == n {
      assert (names + [x])[..|names|] == names;
      FirstIndexIs(names + [x], n, |names|);
    } else {
      assert n !in names + [x];
    }
  }

  function StudyNames(studies: seq<Study>): (r: seq<string>)
    ensures |r| == |studies| && forall i :: 0 <= i < |studies| ==> r[i] == studies[i].name
  {
    seq(|studies|, i requires 0 <= i < |studies| => studies[i].name)
  }

  function SeriesNames(series: seq<Series>): (r: seq<string>)
    ensures |r| == |series| && forall i :: 0 <= i < |series| ==> r[i] == series[i].name
  {
    seq(|series|, i requires 0 <= i < |series| => series[i].name)
  }

  /** The loop over a patient's studies that looks for the study's name. */
  method FindStudy(studies: seq<Study>, name: string) returns (index: Option<nat>)
    ensures index == FirstIndex(StudyNames(studies), name)
  {
    index := None;
    var i := 0;
    while i < |studies|
      invariant 0 <= i <= |studies|
      invariant name !in StudyNames(studies)[..i]
    {
      if studies[i].name == name {
        index := Some(i);
        FirstIndexIs(StudyNames(studies), name, i);
        return;
      }
      assert StudyNames(studies)[..i + 1] == StudyNames(studies)[..i] + [studies[i].name];
      i := i + 1;
    }
    assert StudyNames(studies)[..i] == StudyNames(studies);
  }

  /** The loop over a study's series that looks for the series' name. */
  method FindSeries(series: seq<Series>, name: string) returns (index: Option<nat>)
    ensures index == FirstIndex(SeriesNames(series), name)
  {
    index := None;
    var i := 0;
    while i < |series|
      invariant 0 <= i <= |series|
      invariant name !in SeriesNames(series)[..i]
    {
      if series[i].name == name {
        index := Some(i);
        FirstIndexIs(SeriesNames(series), name, i);
        return;
      }
      assert SeriesNames(series)[..i + 1] == SeriesNames(series)[..i] + [series[i].name];
      i := i + 1;
    }
    assert SeriesNames(series)[..i] == SeriesNames(series);
  }

  // ---------------------------------------------------------------------------
  // Sorting a new image into the tree
  // ---------------------------------------------------------------------------

  /** A patient with the study named `name`, appended if absent, and that study's position. */
  function StudyFor(p: Patient, name: string): (r: (Patient, nat))
    ensures r.1 < |r.0.studies| && r.0.studies[r.1].name == name
  {
    match FirstIndex(StudyNames(p.studies), name)
    case Some(i) => (p, i)
    case None => (PutStudy(p, Study(name, [])), |p.studies|)
  }

  /** A study with the series named `name`, appended if absent, and that series' position. */
  function SeriesFor(st: Study, name: string): (r: (Study, nat))
    ensures r.1 < |r.0.series| && r.0.series[r.1].name == name
  {
    match FirstIndex(SeriesNames(st.series), name)
    case Some(j) => (st, j)
    case None => (st.(series := st.series + [Series(name, [])]), |st.series|)
  }

  /** processNewImage: the patients with the image appended to its series, creating patient, study and series as needed. */
  function InsertImage(patients: map<string, Patient>, image: ImageData): map<string, Patient>
  {
    var p := if image.patientID in patients then patients[image.patientID] else Patient(image.patientID, []);
    var (p1, i) := StudyFor(p, image.studyID);
    var (st1, j) := SeriesFor(p1.studies[i], image.seriesID);
    var se := st1.series[j];
    patients[image.patientID := p1.(studies := p1.studies[i := st1.(series := st1.series[j := se.(elements := se.elements + [Element(image.fileName, image.zPosition)])])])]
  }

  /** The images stored under the first patient, study and series with these names, if any. */
  function ElementsAt(patients: map<string, Patient>, patient: string, study: string, series: string): seq<Element>
  {
    if patient !in patients then []
    else
      var sts := patients[patient].studies;
      match FirstIndex(StudyNames(sts), study)
      case None => []
      case Some(i) =>
        match FirstIndex(SeriesNames(sts[i].series), series)
        case None => []
        case Some(j) => sts[i].series[j].elements
  }

  lemma SeriesForElements(st: Study, name: string, series: string)
    ensures var (st1, j) := SeriesFor(st, name);
            FirstIndex(SeriesNames(st1.series), series)
            == if series == name then Some(j) else FirstIndex(SeriesNames(st.series), series)
  {
    if FirstIndex(SeriesNames(st.series), name).None? {
      assert SeriesNames(st.series + [Series(name, [])]) == SeriesNames(st.series) + [name];
      FirstIndexAppend(SeriesNames(st.series), name, series);
    }
  }

  lemma StudyForElements(p: Patient, name: string, study: string)
    ensures var (p1, i) := StudyFor(p, name);
            && FirstIndex(StudyNames(p1.studies), study)
               == (if study == name then Some(i) else FirstIndex(StudyNames(p.studies), study))
            && (forall k :: 0 <= k < |p.studies| ==> p1.studies[k] == p.studies[k])
  {
    if FirstIndex(StudyNames(p.studies), name).None? {
      assert StudyNames(p.studies + [Study(name, [])]) == StudyNames(p.studies) + [name];
      FirstIndexAppend(StudyNames(p.studies), name, study);
    }
  }

  /**
   * processNewImage adds exactly one image: the one named by its patient,
   * study and series gains it at the end, and every other name triple
   * keeps its images.
   */
  lemma InsertImageElements(patients: map<string, Patient>, image: ImageData, patient: string, study: string, series: string)
    ensures ElementsAt(InsertImage(patients, image), patient, study, series)
            == ElementsAt(patients, patient, study, series)
               + (if patient == image.patientID && study == image.studyID && series == image.seriesID
                  then [Element(image.fileName, image.zPosition)] else [])
  {
    if patient == image.patientID {
      var p := if image.patientID in patients then patients[image.patientID] else Patient(image.patientID, []);
      var (p1, i) := StudyFor(p, image.studyID);
      var (st1, j) := SeriesFor(p1.studies[i], image.seriesID);
      var se := st1.series[j];
      var st2 := st1.(series := st1.series[j := se.(elements := se.elements + [Element(image.fileName, image.zPosition)])]);
      var p2 := p1.(studies := p1.studies[i := st2]);
      StudyForElements(p, image.studyID, study);
      SeriesForElements(p1.studies[i], image.seriesID, series);
      assert StudyNames(p2.studies) == StudyNames(p1.studies);
      assert SeriesNames(st2.series) == SeriesNames(st1.series);
      if study == image.studyID {
        if FirstIndex(StudyNames(p.studies), image.studyID).None? {
          assert ElementsAt(patients, patient, study, series) == [];
          assert st1.series[j].elements == [];
        }
        if FirstIndex(SeriesNames(p1.studies[i].series), image.seriesID).None? && series == image.seriesID {
          assert st1.series[j].elements == [];
        }
      }
    }
  }

  /** processNewImage creates a study only when the patient has none of that name, and keeps patients under their names. */
  lemma InsertImageCreatesOnlyAbsent(patients: map<string, Patient>, image: ImageData)
    ensures var r := InsertImage(patients, image);
            var before := if image.patientID in patients then patients[image.patientID].studies else [];
            && image.patientID in r
            && |r[image.patientID].studies| == |before| + (if image.studyID in StudyNames(before) then 0 else 1)
            && (forall k :: k != image.patientID ==> (k in r <==> k in patients) && (k in r ==> r[k] == patients[k]))
            && (NamesAreKeys(patients) ==> NamesAreKeys(r))
  {
  }

  // ---------------------------------------------------------------------------
  // Writing the index
  // ---------------------------------------------------------------------------

  method WriteElements(es: seq<Element>, number: real -> string) returns (events: seq<Event>)
    ensures events == ElementsEvents(es, number)
  {
    events := [];
    var i := 0;
    while i < |es|
      invariant 0 <= i <= |es| && events == ElementsEvents(es[..i], number)
    {
      assert es[..i + 1][..i] == es[..i];
      events := events + ElementEvents(es[i], number);
      i := i + 1;
    }
    assert es[..i] == es;
  }

  method WriteSeriesList(ses: seq<Series>, number: real -> string) returns (events: seq<Event>)
    ensures events == SeriesListEvents(ses, number)
  {
    events := [];
    var i := 0;
    while i < |ses|
      invariant 0 <= i <= |ses| && events == SeriesListEvents(ses[..i], number)
    {
      assert ses[..i + 1][..i] == ses[..i];
      var inner := WriteElements(ses[i].elements, number);
      events := events + ([StartElement(SeriesTag, map[NameAttribute := ses[i].name])] + inner + [EndElement(SeriesTag)]);
      i := i + 1;
    }
    assert ses[..i] == ses;
  }

  method WriteStudies(sts: seq<Study>, number: real -> string) returns (events: seq<Event>)
    ensures events == StudiesEvents(sts, number)
  {
    events := [];
    var i := 0;
    while i < |sts|
      invariant 0 <= i <= |sts| && events == StudiesEvents(sts[..i], number)
    {
      assert sts[..i + 1][..i] == sts[..i];
      var inner := WriteSeriesList(sts[i].series, number);
      events := events + ([StartElement(StudyTag, map[NameAttribute := sts[i].name])] + inner + [EndElement(StudyTag)]);
      i := i + 1;
    }
    assert sts[..i] == sts;
  }

  method WritePatients(order: seq<string>, patients: map<string, Patient>, number: real -> string) returns (events: seq<Event>)
    requires forall k :: k in order ==> k in patients
    ensures events == PatientListEvents(order, patients, number)
  {
    events := [];
    var i := 0;
    while i < |order|
      invariant 0 <= i <= |order| && events == PatientListEvents(order[..i], patients, number)
    {
      assert order[..i + 1][..i] == order[..i];
      var p := patients[order[i]];
      var inner := WriteStudies(p.studies, number);
      events := events + ([StartElement(PatientTag, map[NameAttribute := p.name])] + inner + [EndElement(PatientTag)]);
      i := i + 1;
    }
    assert order[..i] == order;
  }

  // ---------------------------------------------------------------------------
  // The SAX handler
  // ---------------------------------------------------------------------------

  class SaxParser {
    /** The manager's patients, which the handler fills in place. */
    var patients: map<string, Patient>
    var scope: Scope
    /** The current patient's key; the current study and series are that patient's last ones. */
    var current: Option<string>

    function State(): ParserState
      reads this
    {
      ParserState(scope, patients, current)
    }

    constructor(patients: map<string, Patient>)
      ensures State() == Initial(patients)
    {
      this.patients := patients;
      scope := IndicesScope;
      current := None;
    }

    /** startElement: rejects a tag the scope does not expect, and a z position that is not a number. */
    method StartElement(name: string, attributes: map<string, string>, toDouble: string -> Option<real>) returns (ok: bool)
      requires Valid(State())
      modifies this
      ensures var r := Start(old(State()), name, attributes, toDouble);
              ok == r.Some? && State() == if ok then r.value else old(State())
    {
      ok := true;
      match scope
      case IndicesScope =>
        if name == IndexTag {
          scope := PatientsScope;
        } else {
          ok := false;
        }
      case PatientsScope =>
        if name == PatientTag {
          var n := Value(attributes, NameAttribute);
          patients := patients[n := Patient(n, [])];
          current := Some(n);
          scope := StudiesScope;
        } else {
          ok := false;
        }
      case StudiesScope =>
        if name == StudyTag {
          var c := current.value;
          patients := patients[c := PutStudy(patients[c], Study(Value(attributes, NameAttribute), []))];
          scope := SeriesScope;
        } else {
          ok := false;
        }
      case SeriesScope =>
        if name == SeriesTag {
          var c := current.value;
          patients := patients[c := PutSeries(patients[c], Series(Value(attributes, NameAttribute), []))];
          scope := ElementsScope;
        } else {
          ok := false;
        }
      case ElementsScope =>
        if name == ImageTag {
          var fileName := Value(attributes, FileAttribute);
          var z := toDouble(Value(attributes, ZPositionAttribute));
          if z.None? {
            ok := false;
          } else {
            var c := current.value;
            patients := patients[c := PutElement(patients[c], Element(fileName, z.value))];
            scope := ElementScope;
          }
        } else {
          ok := false;
        }
      case ElementScope =>
    }

    /** endElement: rejects a tag that does not close the current scope. */
    method EndElement(name: string) returns (ok: bool)
      requires Valid(State())
      modifies this
      ensures var r := End(old(State()), name);
              ok == r.Some? && State() == if ok then r.value else old(State())
    {
      ok := true;
      match scope
      case IndicesScope =>
      case PatientsScope =>
        if name == IndexTag { scope := IndicesScope; } else { ok := false; }
      case StudiesScope =>
        if name == PatientTag { scope := PatientsScope; } else { ok := false; }
      case SeriesScope =>
        if name == StudyTag { scope := StudiesScope; } else { ok := false; }
      case ElementsScope =>
        if name == SeriesTag { scope := SeriesScope; } else { ok := false; }
      case ElementScope =>
        if name == ImageTag { scope := ElementsScope; } else { ok := false; }
    }
  }

  // ---------------------------------------------------------------------------
  // The manager
  // ---------------------------------------------------------------------------

  class DicomManager {
    var patients: map<string, Patient>
    var signals: seq<Signal>

    constructor()
      ensures patients == map[] && signals == []
    {
      patients := map[];
      signals := [];
    }

    /** releasePatients: deletes every patient and empties the map. */
    method ReleasePatients()
      modifies this
      ensures patients == map[] && signals == old(signals)
    {
      patients := map[];
    }

    /** fail: discards all patients and signals the failure. */
    method Fail()
      modifies this
      ensures patients == map[] && signals == old(signals) + [Failed]
    {
      ReleasePatients();
      signals := signals + [Failed];
    }

    /** processNewImage: sorts the image into its patient, study and series, creating each only if absent. */
    method ProcessNewImage(image: ImageData)
      modifies this
      ensures patients == InsertImage(old(patients), image) && signals == old(signals)
    {
      if image.patientID !in patients {
        patients := patients[image.patientID := Patient(image.patientID, [])];
      }
      var p := patients[image.patientID];
      var i := FindStudy(p.studies, image.studyID);
      if i.None? {
        p := PutStudy(p, Study(image.studyID, []));
        i := Some(|p.studies| - 1);
      }
      var st := p.studies[i.value];
      var j := FindSeries(st.series, image.seriesID);
      if j.None? {
        st := st.(series := st.series + [Series(image.seriesID, [])]);
        j := Some(|st.series| - 1);
      }
      var se := st.series[j.value];
      se := se.(elements := se.elements + [Element(image.fileName, image.zPosition)]);
      st := st.(series := st.series[j.value := se]);
      p := p.(studies := p.studies[i.value := st]);
      patients := patients[image.patientID := p];
    }

    /**
     * saveIndex: fails, discarding the patients, when the file does not
     * open; otherwise writes the index of all patients, in the map's
     * ascending key order (`MapOrderExists` and `MapOrderUnique` say there is
     * exactly one such order), and signals success if the written file
     * exists and failure otherwise.
     */
    method SaveIndex(canOpen: bool, written: bool, order: seq<string>, number: real -> string) returns (document: seq<Event>)
      requires MapOrder(order, patients)
      modifies this
      ensures document == if canOpen then IndexEvents(order, old(patients), number) else []
      ensures patients == if canOpen && written then old(patients) else map[]
      ensures signals == old(signals) + [if canOpen && written then Finished else Failed]
    {
      if !canOpen {
        Fail();
        return [];
      }
      var inner := WritePatients(order, patients, number);
      document := [StartElement(IndexTag, map[])] + inner + [EndElement(IndexTag)];
      if written {
        signals := signals + [Finished];
      } else {
        Fail();
      }
    }

    /**
     * openIndex: discards the patients, fails if the file does not exist,
     * and otherwise hands the document's events to the handler until one is
     * rejected; a rejected or not well-formed document fails, discarding
     * what was read.
     */
    method OpenIndex(found: bool, document: seq<Event>, toDouble: string -> Option<real>)
      modifies this
      ensures var r := Run(Initial(map[]), document, toDouble);
              var success := found && WellFormed(document) && r.Some?;
              && patients == (if success then r.value.patients else map[])
              && signals == old(signals) + [if success then Finished else Failed]
    {
      ReleasePatients();
      if !found {
        Fail();
        return;
      }
      var parser := new SaxParser(patients);
      var ok := true;
      var i := 0;
      while i < |document| && ok
        invariant 0 <= i <= |document| && Valid(parser.State()) && signals == old(signals)
        invariant ok ==> Run(Initial(map[]), document, toDouble) == Run(parser.State(), document[i..], toDouble)
        invariant !ok ==> Run(Initial(map[]), document, toDouble).None?
        decreases |document| - i
      {
        assert document[i..][0] == document[i] && document[i..][1..] == document[i + 1..];
        if document[i].StartElement? {
          ok := parser.StartElement(document[i].name, document[i].attributes, toDouble);
        } else {
          ok := parser.EndElement(document[i].name);
        }
        i := i + 1;
      }
      patients := parser.patients;
      if ok && WellFormed(document) {
        assert document[i..] == [];
        signals := signals + [Finished];
      } else {
        Fail();
      }
    }
  }
}
