/**
 * The DICOM index: the patient, study, series and image tree the DICOM
 * manager builds, the XML index document it saves, and the SAX scope
 * machine that reads such a document back. The document is modelled as
 * its sequence of element events; the image's z position is a real number,
 * written through a number-to-text function and read back through a
 * text-to-number function that may fail.
 */
module DicomIndex {
  import opened Wrappers

  datatype Element = Element(fileName: string, zPosition: real)
  datatype Series = Series(name: string, elements: seq<Element>)
  datatype Study = Study(name: string, series: seq<Series>)
  datatype Patient = Patient(name: string, studies: seq<Study>)

  const IndexTag: string := "DicomIndex"
  const PatientTag: string := "Patient"
  const StudyTag: string := "Study"
  const SeriesTag: string := "Series"
  const ImageTag: string := "DicomImage"
  const NameAttribute: string := "name"
  const FileAttribute: string := "file"
  const ZPositionAttribute: string := "zPosition"

  /** One SAX event: an element opens with its attributes, or closes. */
  datatype Event = StartElement(name: string, attributes: map<string, string>) | EndElement(name: string)

  /** An attribute's value, or the empty text when it is absent. */
  function Value(attributes: map<string, string>, name: string): (v: string)
    ensures name in attributes ==> v == attributes[name]
    ensures name !in attributes ==> v == ""
  {
    if name in attributes then attributes[name] else ""
  }

  /** Every patient is stored under its own name. */
  predicate NamesAreKeys(patients: map<string, Patient>)
  {
    forall k :: k in patients ==> patients[k].name == k
  }

  /** `order` lists every patient's key exactly once, as the map's iteration does. */
  ghost predicate KeyOrder(order: seq<string>, patients: map<string, Patient>)
  {
    (forall i, j :: 0 <= i < j < |order| ==> order[i] != order[j])
    && (forall k :: k in patients <==> k in order)
  }

  // ---------------------------------------------------------------------------
  // The order of a std::map with string keys
  // ---------------------------------------------------------------------------

  /** std::string's order: the first differing character decides, and a proper prefix comes first. */
  predicate NameBefore(a: string, b: string)
    decreases |a|
  {
    if a == [] then b != []
    else b != [] && (a[0] < b[0] || (a[0] == b[0] && NameBefore(a[1..], b[1..])))
  }

  lemma {:induction false} NameBeforeIrreflexive(a: string)
    ensures !NameBefore(a, a)
    decreases |a|
  {
    if a != [] {
      NameBeforeIrreflexive(a[1..]);
    }
  }

  lemma {:induction false} NameBeforeTransitive(a: string, b: string, c: string)
    requires NameBefore(a, b) && NameBefore(b, c)
    ensures NameBefore(a, c)
    decreases |a|
  {
    if a != [] && a[0] == b[0] && b[0] == c[0] {
      NameBeforeTransitive(a[1..], b[1..], c[1..]);
    }
  }

  lemma {:induction false} NameBeforeTotal(a: string, b: string)
    requires a != b
    ensures NameBefore(a, b) || NameBefore(b, a)
    decreases |a|
  {
    if a != [] && b != [] && a[0] == b[0] {
      assert a == [a[0]] + a[1..] && b == [b[0]] + b[1..];
      NameBeforeTotal(a[1..], b[1..]);
    }
  }

  /** The keys of `patients` in the order a std::map visits them: every key once, each before the larger ones. */
  ghost predicate MapOrder(order: seq<string>, patients: map<string, Patient>)
  {
    (forall i, j :: 0 <= i < j < |order| ==> NameBefore(order[i], order[j]))
    && (forall k :: k in patients <==> k in order)
  }

  /** A least name of a non-empty set, found by removing one name at a time. */
  ghost function LeastName(s: set<string>): (m: string)
    requires s != {}
    ensures m in s && forall x :: x in s && x != m ==> NameBefore(m, x)
    decreases |s|
  {
    var y :| y in s;
    if s == {y} then y
    else
      var rest := LeastName(s - {y});
      if NameBefore(y, rest) then
        assert forall x :: x in s && x != y ==> NameBefore(y, x) by {
          forall x | x in s && x != y
            ensures NameBefore(y, x)
          {
            if x != rest {
              NameBeforeTransitive(y, rest, x);
            }
          }
        }
        y
      else
        NameBeforeTotal(y, rest);
        rest
  }

  /** The names of `s` in ascending order. */
  ghost function AscendingNames(s: set<string>): (r: seq<string>)
    ensures forall i, j :: 0 <= i < j < |r| ==> NameBefore(r[i], r[j])
    ensures forall x :: x in s <==> x in r
    decreases |s|
  {
    if s == {} then []
    else
      var m := LeastName(s);
      var rest := AscendingNames(s - {m});
      assert forall i :: 0 <= i < |rest| ==> NameBefore(m, rest[i]) by {
        forall i | 0 <= i < |rest|
          ensures NameBefore(m, rest[i])
        {
          assert rest[i] in s - {m};
        }
      }
      [m] + rest
  }

  /** Every map of patients has its visiting order. */
  lemma MapOrderExists(patients: map<string, Patient>)
    ensures MapOrder(AscendingNames(patients.Keys), patients)
  {
  }

  /** The visiting order is determined by the keys alone. */
  lemma {:induction false} MapOrderUnique(a: seq<string>, b: seq<string>, patients: map<string, Patient>)
    requires MapOrder(a, patients) && MapOrder(b, patients)
    ensures a == b
    decreases |a|
  {
    assert a != [] ==> a[0] in b;
    assert b != [] ==> b[0] in a;
    if a != [] && b != [] {
      FirstNamesEqual(a, b);
      var rest := patients - {a[0]};
      RestOrder(a, patients);
      RestOrder(b, patients);
      MapOrderUnique(a[1..], b[1..], rest);
      assert a == [a[0]] + a[1..] && b == [b[0]] + b[1..];
    }
  }

  lemma FirstNamesEqual(a: seq<string>, b: seq<string>)
    requires a != [] && b != [] && a[0] in b && b[0] in a
    requires forall i, j :: 0 <= i < j < |a| ==> NameBefore(a[i], a[j])
    requires forall i, j :: 0 <= i < j < |b| ==> NameBefore(b[i], b[j])
    ensures a[0] == b[0]
  {
    var i :| 0 <= i < |b| && b[i] == a[0];
    var j :| 0 <= j < |a| && a[j] == b[0];
    if a[0] != b[0] {
      assert NameBefore(b[0], a[0]) && NameBefore(a[0], b[0]);
      NameBeforeTransitive(a[0], b[0], a[0]);
      NameBeforeIrreflexive(a[0]);
    }
  }

  /** Without its first key, a visiting order is the visiting order of the other patients. */
  lemma RestOrder(a: seq<string>, patients: map<string, Patient>)
    requires a != [] && MapOrder(a, patients)
    ensures MapOrder(a[1..], patients - {a[0]})
  {
    forall k | k in a[1..]
      ensures k != a[0]
    {
      var i :| 1 <= i < |a| && a[i] == k;
      if k == a[0] {
        assert NameBefore(a[0], a[i]);
        NameBeforeIrreflexive(a[0]);
      }
    }
    forall k | k in patients - {a[0]}
      ensures k in a[1..]
    {
      var i :| 0 <= i < |a| && a[i] == k;
      assert i != 0 && a[1..][i - 1] == k;
    }
  }

  /** The visiting order lists every key exactly once. */
  lemma MapOrderIsKeyOrder(order: seq<string>, patients: map<string, Patient>)
    requires MapOrder(order, patients)
    ensures KeyOrder(order, patients)
  {
    forall i, j | 0 <= i < j < |order|
      ensures order[i] != order[j]
    {
      NameBeforeIrreflexive(order[i]);
    }
  }

  // ---------------------------------------------------------------------------
  // Putting into the last study and series, as the parser's current pointers do
  // ---------------------------------------------------------------------------

  function PutStudy(p: Patient, st: Study): (r: Patient)
    ensures r.name == p.name && r.studies == p.studies + [st]
  {
    p.(studies := p.studies + [st])
  }

  function PutSeries(p: Patient, se: Series): (r: Patient)
    requires p.studies != []
    ensures r.name == p.name && |r.studies| == |p.studies| && r.studies[..|p.studies| - 1] == p.studies[..|p.studies| - 1]
    ensures var last := p.studies[|p.studies| - 1];
            r.studies[|r.studies| - 1] == last.(series := last.series + [se])
  {
    var n := |p.studies| - 1;
    p.(studies := p.studies[n := p.studies[n].(series := p.studies[n].series + [se])])
  }

  predicate HasSeries(p: Patient)
  {
    p.studies != [] && p.studies[|p.studies| - 1].series != []
  }

  function PutElement(p: Patient, e: Element): (r: Patient)
    requires HasSeries(p)
    ensures r.name == p.name && HasSeries(r) && |r.studies| == |p.studies|
  {
    var n := |p.studies| - 1;
    var st := p.studies[n];
    var m := |st.series| - 1;
    p.(studies := p.studies[n := st.(series := st.series[m := st.series[m].(elements := st.series[m].elements + [e])])])
  }

  // ---------------------------------------------------------------------------
  // The SAX scope machine
  // ---------------------------------------------------------------------------

  datatype Scope = IndicesScope | PatientsScope | StudiesScope | SeriesScope | ElementsScope | ElementScope

  /** How deep a scope lies in the index: the index is at depth one, an image at depth five. */
  function Depth(scope: Scope): nat
  {
    match scope
    case IndicesScope => 0
    case PatientsScope => 1
    case StudiesScope => 2
    case SeriesScope => 3
    case ElementsScope => 4
    case ElementScope => 5
  }

  /** The parser's state: its scope, the patients read so far, and the current patient's key. */
  datatype ParserState = ParserState(scope: Scope, patients: map<string, Patient>, current: Option<string>)

  /**
   * What the parser's current pointers need: inside a patient there is a
   * current patient; inside a study it has a last study; inside a series
   * that study has a last series.
   */
  predicate Valid(s: ParserState)
  {
    (Depth(s.scope) >= 2 ==> s.current.Some? && s.current.value in s.patients)
    && (Depth(s.scope) >= 3 ==> s.patients[s.current.value].studies != [])
    && (Depth(s.scope) >= 4 ==> HasSeries(s.patients[s.current.value]))
  }

  /**
   * startElement: each scope accepts exactly one tag, which opens the next
   * scope and creates the entity it names; any other tag fails, as does a
   * z position that is not a number. Inside an image, a start is ignored.
   */
  function Start(s: ParserState, name: string, attributes: map<string, string>, toDouble: string -> Option<real>): (r: Option<ParserState>)
    requires Valid(s)
    ensures r.Some? ==> Valid(r.value)
  {
    match s.scope
    case IndicesScope =>
      if name == IndexTag then Some(s.(scope := PatientsScope)) else None
    case PatientsScope =>
      if name == PatientTag then
        var n := Value(attributes, NameAttribute);
        Some(ParserState(StudiesScope, s.patients[n := Patient(n, [])], Some(n)))
      else None
    case StudiesScope =>
      if name == StudyTag then
        var c := s.current.value;
        Some(s.(scope := SeriesScope, patients := s.patients[c := PutStudy(s.patients[c], Study(Value(attributes, NameAttribute), []))]))
      else None
    case SeriesScope =>
      if name == SeriesTag then
        var c := s.current.value;
        Some(s.(scope := ElementsScope, patients := s.patients[c := PutSeries(s.patients[c], Series(Value(attributes, NameAttribute), []))]))
      else None
    case ElementsScope =>
      if name == ImageTag then
        match toDouble(Value(attributes, ZPositionAttribute))
        case None => None
        case Some(z) =>
          var c := s.current.value;
          var e := Element(Value(attributes, FileAttribute), z);
          Some(s.(scope := ElementScope, patients := s.patients[c := PutElement(s.patients[c], e)]))
      else None
    case ElementScope => Some(s)
  }

  /**
   * endElement: each scope closes only on the tag that opened it, going
   * back to the enclosing scope; any other tag fails. Outside the index, an
   * end is ignored.
   */
  function End(s: ParserState, name: string): (r: Option<ParserState>)
    requires Valid(s)
    ensures r.Some? ==> Valid(r.value) && r.value.patients == s.patients && r.value.current == s.current
  {
    match s.scope
    case IndicesScope => Some(s)
    case PatientsScope => if name == IndexTag then Some(s.(scope := IndicesScope)) else None
    case StudiesScope => if name == PatientTag then Some(s.(scope := PatientsScope)) else None
    case SeriesScope => if name == StudyTag then Some(s.(scope := StudiesScope)) else None
    case ElementsScope => if name == SeriesTag then Some(s.(scope := SeriesScope)) else None
    case ElementScope => if name == ImageTag then Some(s.(scope := ElementsScope)) else None
  }

  function Step(s: ParserState, e: Event, toDouble: string -> Option<real>): (r: Option<ParserState>)
    requires Valid(s)
    ensures r.Some? ==> Valid(r.value)
  {
    match e
    case StartElement(name, attributes) => Start(s, name, attributes, toDouble)
    case EndElement(name) => End(s, name)
  }

  /** Parsing a document: the events in order, failing at the first event the handler rejects. */
  function Run(s: ParserState, events: seq<Event>, toDouble: string -> Option<real>): (r: Option<ParserState>)
    requires Valid(s)
    ensures r.Some? ==> Valid(r.value)
    decreases |events|
  {
    if events == [] then Some(s)
    else
      match Step(s, events[0], toDouble)
      case None => None
      case Some(t) => Run(t, events[1..], toDouble)
  }

  /** The parser's state before the first event: outside the index, with the patients it is given. */
  function Initial(patients: map<string, Patient>): (s: ParserState)
    ensures Valid(s)
  {
    ParserState(IndicesScope, patients, None)
  }

  lemma {:induction false} RunAppend(s: ParserState, a: seq<Event>, b: seq<Event>, toDouble: string -> Option<real>)
    requires Valid(s)
    ensures Run(s, a + b, toDouble) == match Run(s, a, toDouble) case None => None case Some(t) => Run(t, b, toDouble)
    decreases |a|
  {
    if a == [] {
      assert a + b == b;
    } else {
      assert (a + b)[0] == a[0] && (a + b)[1..] == a[1..] + b;
      match Step(s, a[0], toDouble)
      case None =>
      case Some(t) => RunAppend(t, a[1..], b, toDouble);
    }
  }

  // ---------------------------------------------------------------------------
  // The saved document
  // ---------------------------------------------------------------------------

  function ElementEvents(e: Element, number: real -> string): seq<Event>
  {
    [StartElement(ImageTag, map[FileAttribute := e.fileName, ZPositionAttribute := number(e.zPosition)]), EndElement(ImageTag)]
  }

  function ElementsEvents(es: seq<Element>, number: real -> string): seq<Event>
    decreases |es|
  {
    if es == [] then [] else ElementsEvents(es[..|es| - 1], number) + ElementEvents(es[|es| - 1], number)
  }

  function SeriesEvents(se: Series, number: real -> string): seq<Event>
  {
    [StartElement(SeriesTag, map[NameAttribute := se.name])] + ElementsEvents(se.elements, number) + [EndElement(SeriesTag)]
  }

  function SeriesListEvents(ses: seq<Series>, number: real -> string): seq<Event>
    decreases |ses|
  {
    if ses == [] then [] else SeriesListEvents(ses[..|ses| - 1], number) + SeriesEvents(ses[|ses| - 1], number)
  }

  function StudyEvents(st: Study, number: real -> string): seq<Event>
  {
    [StartElement(StudyTag, map[NameAttribute := st.name])] + SeriesListEvents(st.series, number) + [EndElement(StudyTag)]
  }

  function StudiesEvents(sts: seq<Study>, number: real -> string): seq<Event>
    decreases |sts|
  {
    if sts == [] then [] else StudiesEvents(sts[..|sts| - 1], number) + StudyEvents(sts[|sts| - 1], number)
  }

  function PatientEvents(p: Patient, number: real -> string): seq<Event>
  {
    [StartElement(PatientTag, map[NameAttribute := p.name])] + StudiesEvents(p.studies, number) + [EndElement(PatientTag)]
  }

  function PatientListEvents(order: seq<string>, patients: map<string, Patient>, number: real -> string): seq<Event>
    requires forall k :: k in order ==> k in patients
    decreases |order|
  {
    if order == [] then []
    else PatientListEvents(order[..|order| - 1], patients, number) + PatientEvents(patients[order[|order| - 1]], number)
  }

  /** saveIndex's document: the index element holding each patient, in the map's order, and their nesting. */
  function IndexEvents(order: seq<string>, patients: map<string, Patient>, number: real -> string): seq<Event>
    requires forall k :: k in order ==> k in patients
  {
    [StartElement(IndexTag, map[])] + PatientListEvents(order, patients, number) + [EndElement(IndexTag)]
  }

  // ---------------------------------------------------------------------------
  // Well-formedness, which the XML reader checks besides the handler
  // ---------------------------------------------------------------------------

  /**
   * The elements still open after `events`, innermost last, starting with
   * `open`; `None` at a closing tag that does not close the innermost open
   * element.
   */
  function Unclosed(open: seq<string>, events: seq<Event>): (r: Option<seq<string>>)
    ensures events == [] ==> r == Some(open)
    decreases |events|
  {
    if events == [] then Some(open)
    else
      match events[0]
      case StartElement(name, _) => Unclosed(open + [name], events[1..])
      case EndElement(name) =>
        if open != [] && open[|open| - 1] == name then Unclosed(open[..|open| - 1], events[1..]) else None
  }

  /** Every element the events open they also close, in nesting order. */
  predicate Balanced(events: seq<Event>)
  {
    Unclosed([], events) == Some([])
  }

  /**
   * A well-formed document: one root element, closed by its own tag at
   * the end, with balanced content.
   */
  predicate WellFormed(document: seq<Event>)
  {
    |document| >= 2 && document[0].StartElement?
    && document[|document| - 1] == EndElement(document[0].name)
    && Balanced(document[1..|document| - 1])
  }

  lemma {:induction false} UnclosedAppend(open: seq<string>, a: seq<Event>, b: seq<Event>)
    ensures Unclosed(open, a + b) == match Unclosed(open, a) case None => None case Some(o) => Unclosed(o, b)
    decreases |a|
  {
    if a == [] {
      assert a + b == b;
    } else {
      assert (a + b)[0] == a[0] && (a + b)[1..] == a[1..] + b;
      match a[0]
      case StartElement(name, _) => UnclosedAppend(open + [name], a[1..], b);
      case EndElement(name) =>
        if open != [] && open[|open| - 1] == name {
          UnclosedAppend(open[..|open| - 1], a[1..], b);
        }
    }
  }

  /** Events that succeed on some open elements succeed the same way below further open elements. */
  lemma {:induction false} UnclosedBelow(outer: seq<string>, open: seq<string>, events: seq<Event>)
    requires Unclosed(open, events).Some?
    ensures Unclosed(outer + open, events) == Some(outer + Unclosed(open, events).value)
    decreases |events|
  {
    if events != [] {
      match events[0]
      case StartElement(name, _) =>
        assert (outer + open) + [name] == outer + (open + [name]);
        UnclosedBelow(outer, open + [name], events[1..]);
      case EndElement(name) =>
        assert (outer + open)[..|outer + open| - 1] == outer + open[..|open| - 1];
        UnclosedBelow(outer, open[..|open| - 1], events[1..]);
    }
  }

  lemma BalancedConcat(a: seq<Event>, b: seq<Event>)
    requires Balanced(a) && Balanced(b)
    ensures Balanced(a + b)
  {
    UnclosedAppend([], a, b);
  }

  lemma BalancedWrap(start: Event, body: seq<Event>)
    requires start.StartElement? && Balanced(body)
    ensures Balanced([start] + body + [EndElement(start.name)])
  {
    var close := [EndElement(start.name)];
    var all := [start] + body + close;
    assert all[0] == start && all[1..] == body + close;
    assert Unclosed([], all) == Unclosed([start.name], body + close);
    UnclosedBelow([start.name], [], body);
    assert [start.name] + [] == [start.name];
    assert Unclosed([start.name], body) == Some([start.name]);
    UnclosedAppend([start.name], body, close);
    assert Unclosed([start.name], close) == Unclosed([], close[1..]);
  }

  lemma {:induction false} ElementsBalanced(es: seq<Element>, number: real -> string)
    ensures Balanced(ElementsEvents(es, number))
    decreases |es|
  {
    if es != [] {
      ElementsBalanced(es[..|es| - 1], number);
      var e := ElementEvents(es[|es| - 1], number);
      BalancedWrap(e[0], []);
      assert [e[0]] + [] + [EndElement(e[0].name)] == e;
      BalancedConcat(ElementsEvents(es[..|es| - 1], number), e);
    }
  }

  lemma {:induction false} SeriesListBalanced(ses: seq<Series>, number: real -> string)
    ensures Balanced(SeriesListEvents(ses, number))
    decreases |ses|
  {
    if ses != [] {
      var se := ses[|ses| - 1];
      SeriesListBalanced(ses[..|ses| - 1], number);
      ElementsBalanced(se.elements, number);
      BalancedWrap(StartElement(SeriesTag, map[NameAttribute := se.name]), ElementsEvents(se.elements, number));
      BalancedConcat(SeriesListEvents(ses[..|ses| - 1], number), SeriesEvents(se, number));
    }
  }

  lemma {:induction false} StudiesBalanced(sts: seq<Study>, number: real -> string)
    ensures Balanced(StudiesEvents(sts, number))
    decreases |sts|
  {
    if sts != [] {
      var st := sts[|sts| - 1];
      StudiesBalanced(sts[..|sts| - 1], number);
      SeriesListBalanced(st.series, number);
      BalancedWrap(StartElement(StudyTag, map[NameAttribute := st.name]), SeriesListEvents(st.series, number));
      BalancedConcat(StudiesEvents(sts[..|sts| - 1], number), StudyEvents(st, number));
    }
  }

  lemma {:induction false} PatientListBalanced(order: seq<string>, patients: map<string, Patient>, number: real -> string)
    requires forall k :: k in order ==> k in patients
    ensures Balanced(PatientListEvents(order, patients, number))
    decreases |order|
  {
    if order != [] {
      var p := patients[order[|order| - 1]];
      PatientListBalanced(order[..|order| - 1], patients, number);
      StudiesBalanced(p.studies, number);
      BalancedWrap(StartElement(PatientTag, map[NameAttribute := p.name]), StudiesEvents(p.studies, number));
      BalancedConcat(PatientListEvents(order[..|order| - 1], patients, number), PatientEvents(p, number));
    }
  }

  /** saveIndex writes a well-formed document. */
  lemma IndexWellFormed(order: seq<string>, patients: map<string, Patient>, number: real -> string)
    requires forall k :: k in order ==> k in patients
    ensures WellFormed(IndexEvents(order, patients, number))
  {
    var d := IndexEvents(order, patients, number);
    PatientListBalanced(order, patients, number);
    assert d[1..|d| - 1] == PatientListEvents(order, patients, number);
  }

  /** A document cut off inside the index is not well-formed, whatever the handler makes of it. */
  lemma TruncatedIndexNotWellFormed(name: string)
    ensures !WellFormed([StartElement(IndexTag, map[]), StartElement(PatientTag, map[NameAttribute := name])])
  {
    var d := [StartElement(IndexTag, map[]), StartElement(PatientTag, map[NameAttribute := name])];
    assert d[|d| - 1] != EndElement(d[0].name);
  }

  // ---------------------------------------------------------------------------
  // What reading back changes: each z position goes through its text
  // ---------------------------------------------------------------------------

  function RereadZ(z: real, number: real -> string, toDouble: string -> Option<real>): real
  {
    match toDouble(number(z))
    case Some(v) => v
    case None => z
  }

  function RereadElements(es: seq<Element>, number: real -> string, toDouble: string -> Option<real>): (r: seq<Element>)
    ensures |r| == |es|
    ensures forall i :: 0 <= i < |es| ==> r[i] == es[i].(zPosition := RereadZ(es[i].zPosition, number, toDouble))
  {
    seq(|es|, i requires 0 <= i < |es| => es[i].(zPosition := RereadZ(es[i].zPosition, number, toDouble)))
  }

  function RereadSeries(ses: seq<Series>, number: real -> string, toDouble: string -> Option<real>): (r: seq<Series>)
    ensures |r| == |ses|
    ensures forall i :: 0 <= i < |ses| ==> r[i] == ses[i].(elements := RereadElements(ses[i].elements, number, toDouble))
  {
    seq(|ses|, i requires 0 <= i < |ses| => ses[i].(elements := RereadElements(ses[i].elements, number, toDouble)))
  }

  function RereadStudies(sts: seq<Study>, number: real -> string, toDouble: string -> Option<real>): (r: seq<Study>)
    ensures |r| == |sts|
    ensures forall i :: 0 <= i < |sts| ==> r[i] == sts[i].(series := RereadSeries(sts[i].series, number, toDouble))
  {
    seq(|sts|, i requires 0 <= i < |sts| => sts[i].(series := RereadSeries(sts[i].series, number, toDouble)))
  }

  function RereadPatient(p: Patient, number: real -> string, toDouble: string -> Option<real>): Patient
  {
    p.(studies := RereadStudies(p.studies, number, toDouble))
  }

  /** The patients as read back from their saved index. */
  function RereadIndex(patients: map<string, Patient>, number: real -> string, toDouble: string -> Option<real>): map<string, Patient>
  {
    map k | k in patients :: RereadPatient(patients[k], number, toDouble)
  }

  /** Every z position the writer produces reads back as a number. */
  ghost predicate Readable(number: real -> string, toDouble: string -> Option<real>)
  {
    forall z :: toDouble(number(z)).Some?
  }

  // ---------------------------------------------------------------------------
  // Reading back, level by level
  // ---------------------------------------------------------------------------

  function PutElements(p: Patient, es: seq<Element>): (r: Patient)
    requires HasSeries(p)
    ensures HasSeries(r) && r.name == p.name
    decreases |es|
  {
    if es == [] then p else PutElement(PutElements(p, es[..|es| - 1]), es[|es| - 1])
  }

  lemma PutElementIntoLast(p: Patient, se: Series, e: Element)
    requires p.studies != []
    ensures PutElement(PutSeries(p, se), e) == PutSeries(p, se.(elements := se.elements + [e]))
  {
    var n := |p.studies| - 1;
    var last := p.studies[n];
    var se2 := se.(elements := se.elements + [e]);
    assert (last.series + [se])[|last.series| := se2] == last.series + [se2];
  }

  /** Putting elements one by one into a series just put is putting the series with them. */
  lemma {:induction false} PutElementsIntoLast(p: Patient, se: Series, es: seq<Element>)
    requires p.studies != []
    ensures PutElements(PutSeries(p, se), es) == PutSeries(p, se.(elements := se.elements + es))
    decreases |es|
  {
    if es == [] {
      assert se.elements + es == se.elements;
    } else {
      var front := es[..|es| - 1];
      PutElementsIntoLast(p, se, front);
      PutElementIntoLast(p, se.(elements := se.elements + front), es[|es| - 1]);
      assert se.elements + front + [es[|es| - 1]] == se.elements + es;
    }
  }

  function PutSeriesList(p: Patient, ses: seq<Series>): (r: Patient)
    requires p.studies != []
    ensures r.studies != [] && r.name == p.name
    decreases |ses|
  {
    if ses == [] then p else PutSeries(PutSeriesList(p, ses[..|ses| - 1]), ses[|ses| - 1])
  }

  lemma PutSeriesIntoLast(p: Patient, st: Study, se: Series)
    ensures PutSeries(PutStudy(p, st), se) == PutStudy(p, st.(series := st.series + [se]))
  {
  }

  /** Putting series one by one into a study just put is putting the study with them. */
  lemma {:induction false} PutSeriesListIntoLast(p: Patient, st: Study, ses: seq<Series>)
    ensures PutSeriesList(PutStudy(p, st), ses) == PutStudy(p, st.(series := st.series + ses))
    decreases |ses|
  {
    if ses == [] {
      assert st.series + ses == st.series;
    } else {
      var front := ses[..|ses| - 1];
      PutSeriesListIntoLast(p, st, front);
      PutSeriesIntoLast(p, st.(series := st.series + front), ses[|ses| - 1]);
      assert st.series + front + [ses[|ses| - 1]] == st.series + ses;
    }
  }

  /** The events of one image, read inside its series, put the image into the series. */
  lemma ImageRun(s: ParserState, e: Element, number: real -> string, toDouble: string -> Option<real>)
    requires Valid(s) && s.scope == ElementsScope && toDouble(number(e.zPosition)).Some?
    ensures var c := s.current.value;
            Run(s, ElementEvents(e, number), toDouble)
            == Some(s.(patients := s.patients[c := PutElement(s.patients[c], Element(e.fileName, RereadZ(e.zPosition, number, toDouble)))]))
  {
    var c := s.current.value;
    var s2 := s.(scope := ElementScope, patients := s.patients[c := PutElement(s.patients[c], Element(e.fileName, RereadZ(e.zPosition, number, toDouble)))]);
    var attributes := map[FileAttribute := e.fileName, ZPositionAttribute := number(e.zPosition)];
    assert Value(attributes, ZPositionAttribute) == number(e.zPosition);
    assert Value(attributes, FileAttribute) == e.fileName;
    assert Step(s, ElementEvents(e, number)[0], toDouble) == Some(s2);
    assert ElementEvents(e, number)[1..] == [EndElement(ImageTag)];
    assert Run(s2, [EndElement(ImageTag)], toDouble) == Some(s2.(scope := ElementsScope));
  }

  /** The image events of a series, read inside that series, put the images into it. */
  lemma {:induction false} ElementsRun(s: ParserState, es: seq<Element>, number: real -> string, toDouble: string -> Option<real>)
    requires Valid(s) && s.scope == ElementsScope && Readable(number, toDouble)
    ensures var c := s.current.value;
            Run(s, ElementsEvents(es, number), toDouble)
            == Some(s.(patients := s.patients[c := PutElements(s.patients[c], RereadElements(es, number, toDouble))]))
    decreases |es|
  {
    var c := s.current.value;
    var p := s.patients[c];
    var rs := RereadElements(es, number, toDouble);
    if es == [] {
      assert rs == [];
      assert s.patients[c := p] == s.patients;
    } else {
      var front := es[..|es| - 1];
      var e := es[|es| - 1];
      var rfront := RereadElements(front, number, toDouble);
      var z := RereadZ(e.zPosition, number, toDouble);
      assert toDouble(number(e.zPosition)) == Some(z);
      assert rs == rfront + [Element(e.fileName, z)];
      assert rs[..|rs| - 1] == rfront;
      ElementsRun(s, front, number, toDouble);
      assert ElementsEvents(es, number) == ElementsEvents(front, number) + ElementEvents(e, number);
      RunAppend(s, ElementsEvents(front, number), ElementEvents(e, number), toDouble);
      var s1 := s.(patients := s.patients[c := PutElements(p, rfront)]);
      assert Run(s, ElementsEvents(front, number), toDouble) == Some(s1);
      ImageRun(s1, e, number, toDouble);
      assert s1.patients[c] == PutElements(p, rfront);
      assert PutElements(p, rs) == PutElement(PutElements(p, rfront), Element(e.fileName, z));
      assert s1.patients[c := PutElements(p, rs)] == s.patients[c := PutElements(p, rs)];
    }
  }

  /** An element's events, read: its start, its body, then its end. */
  lemma RunWrapped(s: ParserState, a: Event, body: seq<Event>, b: Event, toDouble: string -> Option<real>)
    requires Valid(s)
    ensures Run(s, [a] + body + [b], toDouble)
            == match Step(s, a, toDouble)
               case None => None
               case Some(t) =>
                 match Run(t, body, toDouble)
                 case None => None
                 case Some(u) => Step(u, b, toDouble)
  {
    RunAppend(s, [a] + body, [b], toDouble);
    RunAppend(s, [a], body, toDouble);
    assert [a][1..] == [];
    match Run(s, [a] + body, toDouble)
    case None =>
    case Some(u) =>
      assert [b][1..] == [];
  }

  /** The events of one series, read inside its study, put the series with its images into the study. */
  lemma SeriesRun(s: ParserState, se: Series, number: real -> string, toDouble: string -> Option<real>)
    requires Valid(s) && s.scope == SeriesScope && Readable(number, toDouble)
    ensures var c := s.current.value;
            Run(s, SeriesEvents(se, number), toDouble)
            == Some(s.(patients := s.patients[c := PutSeries(s.patients[c], se.(elements := RereadElements(se.elements, number, toDouble)))]))
  {
    var c := s.current.value;
    var p := s.patients[c];
    var res := RereadElements(se.elements, number, toDouble);
    var s1 := s.(scope := ElementsScope, patients := s.patients[c := PutSeries(p, Series(se.name, []))]);
    assert Value(map[NameAttribute := se.name], NameAttribute) == se.name;
    assert Step(s, StartElement(SeriesTag, map[NameAttribute := se.name]), toDouble) == Some(s1);
    ElementsRun(s1, se.elements, number, toDouble);
    PutElementsIntoLast(p, Series(se.name, []), res);
    assert [] + res == res;
    var u := s.(scope := ElementsScope, patients := s.patients[c := PutSeries(p, se.(elements := res))]);
    assert s1.patients[c := PutElements(s1.patients[c], res)] == u.patients;
    assert Run(s1, ElementsEvents(se.elements, number), toDouble) == Some(u);
    RunWrapped(s, StartElement(SeriesTag, map[NameAttribute := se.name]), ElementsEvents(se.elements, number), EndElement(SeriesTag), toDouble);
  }

  /** The events of a study's series, read inside the study, put the series into it. */
  lemma {:induction false} SeriesListRun(s: ParserState, ses: seq<Series>, number: real -> string, toDouble: string -> Option<real>)
    requires Valid(s) && s.scope == SeriesScope && Readable(number, toDouble)
    ensures var c := s.current.value;
            Run(s, SeriesListEvents(ses, number), toDouble)
            == Some(s.(patients := s.patients[c := PutSeriesList(s.patients[c], RereadSeries(ses, number, toDouble))]))
    decreases |ses|
  {
    var c := s.current.value;
    var p := s.patients[c];
    var rs := RereadSeries(ses, number, toDouble);
    if ses == [] {
      assert rs == [];
      assert s.patients[c := p] == s.patients;
    } else {
      var front := ses[..|ses| - 1];
      var se := ses[|ses| - 1];
      var rfront := RereadSeries(front, number, toDouble);
      var rse := se.(elements := RereadElements(se.elements, number, toDouble));
      assert rs == rfront + [rse];
      assert rs[..|rs| - 1] == rfront;
      SeriesListRun(s, front, number, toDouble);
      RunAppend(s, SeriesListEvents(front, number), SeriesEvents(se, number), toDouble);
      var s1 := s.(patients := s.patients[c := PutSeriesList(p, rfront)]);
      assert Run(s, SeriesListEvents(front, number), toDouble) == Some(s1);
      SeriesRun(s1, se, number, toDouble);
      assert s1.patients[c] == PutSeriesList(p, rfront);
      assert PutSeriesList(p, rs) == PutSeries(PutSeriesList(p, rfront), rse);
      assert s1.patients[c := PutSeriesList(p, rs)] == s.patients[c := PutSeriesList(p, rs)];
    }
  }

  /** The events of one study's series, read after its start, fill the study just put into the patient. */
  lemma StudyBodyRun(s: ParserState, st: Study, number: real -> string, toDouble: string -> Option<real>)
    requires Valid(s) && s.scope == StudiesScope && Readable(number, toDouble)
    ensures var c := s.current.value;
            var p := s.patients[c];
            Run(s.(scope := SeriesScope, patients := s.patients[c := PutStudy(p, Study(st.name, []))]), SeriesListEvents(st.series, number), toDouble)
            == Some(s.(scope := SeriesScope, patients := s.patients[c := PutStudy(p, st.(series := RereadSeries(st.series, number, toDouble)))]))
  {
    var c := s.current.value;
    var p := s.patients[c];
    var rs := RereadSeries(st.series, number, toDouble);
    var s1 := s.(scope := SeriesScope, patients := s.patients[c := PutStudy(p, Study(st.name, []))]);
    SeriesListRun(s1, st.series, number, toDouble);
    var started := PutStudy(p, Study(st.name, []));
    PutSeriesListIntoLast(p, Study(st.name, []), rs);
    assert [] + rs == rs;
    var filled := PutStudy(p, st.(series := rs));
    assert PutSeriesList(started, rs) == filled;
    assert s1.patients[c] == started;
    UpdateTwice(s.patients, c, started, filled);
    assert s1.(patients := s1.patients[c := filled]) == s.(scope := SeriesScope, patients := s.patients[c := filled]);
  }

  lemma UpdateTwice<K, V>(m: map<K, V>, k: K, a: V, b: V)
    ensures m[k := a][k := b] == m[k := b]
  {
  }

  /** The events of one study, read inside its patient, put the study with its series into the patient. */
  lemma StudyRun(s: ParserState, st: Study, number: real -> string, toDouble: string -> Option<real>)
    requires Valid(s) && s.scope == StudiesScope && Readable(number, toDouble)
    ensures var c := s.current.value;
            Run(s, StudyEvents(st, number), toDouble)
            == Some(s.(patients := s.patients[c := PutStudy(s.patients[c], st.(series := RereadSeries(st.series, number, toDouble)))]))
  {
    var c := s.current.value;
    var p := s.patients[c];
    var s1 := s.(scope := SeriesScope, patients := s.patients[c := PutStudy(p, Study(st.name, []))]);
    assert Value(map[NameAttribute := st.name], NameAttribute) == st.name;
    assert Step(s, StartElement(StudyTag, map[NameAttribute := st.name]), toDouble) == Some(s1);
    StudyBodyRun(s, st, number, toDouble);
    RunWrapped(s, StartElement(StudyTag, map[NameAttribute := st.name]), SeriesListEvents(st.series, number), EndElement(StudyTag), toDouble);
  }

  /** The events of a patient's studies, read inside the patient, append the studies to it. */
  lemma {:induction false} StudiesRun(s: ParserState, sts: seq<Study>, number: real -> string, toDouble: string -> Option<real>)
    requires Valid(s) && s.scope == StudiesScope && Readable(number, toDouble)
    ensures var c := s.current.value;
            var p := s.patients[c];
            Run(s, StudiesEvents(sts, number), toDouble)
            == Some(s.(patients := s.patients[c := p.(studies := p.studies + RereadStudies(sts, number, toDouble))]))
    decreases |sts|
  {
    var c := s.current.value;
    var p := s.patients[c];
    var rs := RereadStudies(sts, number, toDouble);
    if sts == [] {
      assert p.studies + rs == p.studies;
      assert s.patients[c := p] == s.patients;
    } else {
      var front := sts[..|sts| - 1];
      var st := sts[|sts| - 1];
      var rfront := RereadStudies(front, number, toDouble);
      var rst := st.(series := RereadSeries(st.series, number, toDouble));
      assert rs == rfront + [rst];
      StudiesRun(s, front, number, toDouble);
      RunAppend(s, StudiesEvents(front, number), StudyEvents(st, number), toDouble);
      var p1 := p.(studies := p.studies + rfront);
      var s1 := s.(patients := s.patients[c := p1]);
      assert Run(s, StudiesEvents(front, number), toDouble) == Some(s1);
      StudyRun(s1, st, number, toDouble);
      assert PutStudy(p1, rst) == p.(studies := p.studies + rs);
      assert s1.patients[c := PutStudy(p1, rst)] == s.patients[c := p.(studies := p.studies + rs)];
    }
  }

  /** The events of one patient, read inside the index, store the patient with its studies under its name. */
  lemma PatientRun(s: ParserState, pt: Patient, number: real -> string, toDouble: string -> Option<real>)
    requires Valid(s) && s.scope == PatientsScope && Readable(number, toDouble)
    ensures Run(s, PatientEvents(pt, number), toDouble)
            == Some(ParserState(PatientsScope, s.patients[pt.name := RereadPatient(pt, number, toDouble)], Some(pt.name)))
  {
    var n := pt.name;
    var rs := RereadStudies(pt.studies, number, toDouble);
    var s1 := ParserState(StudiesScope, s.patients[n := Patient(n, [])], Some(n));
    assert Value(map[NameAttribute := n], NameAttribute) == n;
    assert Step(s, StartElement(PatientTag, map[NameAttribute := n]), toDouble) == Some(s1);
    StudiesRun(s1, pt.studies, number, toDouble);
    assert [] + rs == rs;
    var u := ParserState(StudiesScope, s.patients[n := RereadPatient(pt, number, toDouble)], Some(n));
    assert s1.patients[n := Patient(n, [] + rs)] == u.patients;
    assert Run(s1, StudiesEvents(pt.studies, number), toDouble) == Some(u);
    RunWrapped(s, StartElement(PatientTag, map[NameAttribute := n]), StudiesEvents(pt.studies, number), EndElement(PatientTag), toDouble);
  }

  /** The patients of `order`, as read back. */
  function Loaded(order: seq<string>, patients: map<string, Patient>, number: real -> string, toDouble: string -> Option<real>): map<string, Patient>
  {
    map k | k in patients && k in order :: RereadPatient(patients[k], number, toDouble)
  }

  lemma LoadedSnoc(before: map<string, Patient>, order: seq<string>, patients: map<string, Patient>,
                   number: real -> string, toDouble: string -> Option<real>)
    requires order != [] && order[|order| - 1] in patients
    ensures var k := order[|order| - 1];
            (before + Loaded(order[..|order| - 1], patients, number, toDouble))[k := RereadPatient(patients[k], number, toDouble)]
            == before + Loaded(order, patients, number, toDouble)
  {
    assert order == order[..|order| - 1] + [order[|order| - 1]];
  }

  /** The events of the patients in `order`, read inside the index, store each of them under its name. */
  lemma {:induction false} PatientListRun(s: ParserState, order: seq<string>, patients: map<string, Patient>,
                                          number: real -> string, toDouble: string -> Option<real>)
    requires Valid(s) && s.scope == PatientsScope && Readable(number, toDouble)
    requires NamesAreKeys(patients) && forall k :: k in order ==> k in patients
    ensures var r := Run(s, PatientListEvents(order, patients, number), toDouble);
            r.Some? && r.value.scope == PatientsScope && r.value.patients == s.patients + Loaded(order, patients, number, toDouble)
    decreases |order|
  {
    if order == [] {
      assert Loaded(order, patients, number, toDouble) == map[];
      assert s.patients + map[] == s.patients;
    } else {
      var front := order[..|order| - 1];
      var k := order[|order| - 1];
      PatientListRun(s, front, patients, number, toDouble);
      RunAppend(s, PatientListEvents(front, patients, number), PatientEvents(patients[k], number), toDouble);
      var t := Run(s, PatientListEvents(front, patients, number), toDouble).value;
      PatientRun(t, patients[k], number, toDouble);
      assert patients[k].name == k;
      LoadedSnoc(s.patients, order, patients, number, toDouble);
    }
  }

  /**
   * saveIndex writes exactly what the reader accepts: the saved index is
   * well-formed, and reading it back into no patients succeeds, ends
   * outside the index, and
   * yields the saved patients with every z position passed through its
   * text.
   */
  lemma IndexRoundTrip(order: seq<string>, patients: map<string, Patient>, number: real -> string, toDouble: string -> Option<real>)
    requires KeyOrder(order, patients) && NamesAreKeys(patients) && Readable(number, toDouble)
    ensures WellFormed(IndexEvents(order, patients, number))
    ensures var r := Run(Initial(map[]), IndexEvents(order, patients, number), toDouble);
            r.Some? && r.value.scope == IndicesScope && r.value.patients == RereadIndex(patients, number, toDouble)
  {
    IndexWellFormed(order, patients, number);
    var s := Initial(map[]);
    var s1 := s.(scope := PatientsScope);
    assert Step(s, StartElement(IndexTag, map[]), toDouble) == Some(s1);
    PatientListRun(s1, order, patients, number, toDouble);
    RunWrapped(s, StartElement(IndexTag, map[]), PatientListEvents(order, patients, number), EndElement(IndexTag), toDouble);
    assert map[] + Loaded(order, patients, number, toDouble) == RereadIndex(patients, number, toDouble);
  }

  /** Every z position reads back as itself. */
  ghost predicate Exact(number: real -> string, toDouble: string -> Option<real>)
  {
    forall z :: toDouble(number(z)) == Some(z)
  }

  /** When the z positions read back exactly, reading the saved index back gives the same patients. */
  lemma RereadExact(patients: map<string, Patient>, number: real -> string, toDouble: string -> Option<real>)
    requires Exact(number, toDouble)
    ensures RereadIndex(patients, number, toDouble) == patients
  {
    forall k | k in patients
      ensures RereadPatient(patients[k], number, toDouble) == patients[k]
    {
      var sts := patients[k].studies;
      forall i | 0 <= i < |sts|
        ensures RereadSeries(sts[i].series, number, toDouble) == sts[i].series
      {
        var ses := sts[i].series;
        forall j | 0 <= j < |ses|
          ensures RereadElements(ses[j].elements, number, toDouble) == ses[j].elements
        {
          var es := ses[j].elements;
          forall m | 0 <= m < |es|
            ensures RereadZ(es[m].zPosition, number, toDouble) == es[m].zPosition
          {
            assert toDouble(number(es[m].zPosition)) == Some(es[m].zPosition);
          }
        }
      }
      assert RereadStudies(sts, number, toDouble) == sts;
    }
  }
}
