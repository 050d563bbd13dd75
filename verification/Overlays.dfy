/** A configuration under an overlay: merged, read again and validated (aj-package/config.rs). */
module Overlays {
  import opened Text
  import opened Merge
  import opened Limits
  import opened Decimal
  import Paths

  /** How a configuration is written as a document, and how a document is read as one. */
  datatype Form = Form(write: Config -> map<string, Json>, read: map<string, Json> -> Option<Config>)

  datatype Outcome = Accepted(config: Config) | Unreadable | Invalid(fault: Fault)

  /** What may come of laying `overlay` on `c`: the merged document is read and judged like
      any other, and an overlay that says nothing leaves the configuration as it is. */
  ghost predicate MayBecome(c: Config, overlay: Option<Json>, form: Form, o: Outcome) {
    if SaysNothing(overlay) then o == Accepted(c)
    else
      match form.read(Laid(form.write(c), overlay))
      case None => o == Unreadable
      case Some(d) => (Sound(d) && o == Accepted(d)) || (!Sound(d) && o.Invalid? && Has(d, o.fault))
  }

  method Overlaid(c: Config, overlay: Option<Json>, form: Form) returns (o: Outcome)
    ensures MayBecome(c, overlay, form, o)
    ensures SaysNothing(overlay) ==> o == Accepted(c)
    ensures !SaysNothing(overlay) ==>
              match form.read(Laid(form.write(c), overlay))
              case None => o == Unreadable
              case Some(d) => if Sound(d) then o == Accepted(d) else o.Invalid? && Has(d, o.fault)
  {
    if SaysNothing(overlay) {
      return Accepted(c);
    }
    var doc := form.write(c);
    var merged := LayOver(doc, overlay);
    var read := form.read(merged);
    if read == None {
      return Unreadable;
    }
    var valid := Validated(read.value);
    return match valid case Ok(d) => Accepted(d) case Refused(fault) => Invalid(fault);
  }

  /** **No overlay makes an unsound configuration of a sound one**: it is sound or refused. */
  lemma SoundOrRefused(c: Config, overlay: Option<Json>, form: Form, o: Outcome)
    requires Sound(c) && MayBecome(c, overlay, form, o)
    ensures o.Accepted? ==> Sound(o.config)
    ensures o.Accepted? && !SaysNothing(overlay) ==> form.read(Laid(form.write(c), overlay)) == Some(o.config)
  {}

  /** A configuration whose document reads back as itself is unchanged by that document. */
  lemma OwnDocumentChangesNothing(c: Config, form: Form, o: Outcome)
    requires Sound(c) && form.read(form.write(c)) == Some(c)
    requires MayBecome(c, Some(Object(form.write(c))), form, o)
    ensures o == Accepted(c)
  {
    LaidOnItself(form.write(c));
  }

  /** **When applying an overlay twice is applying it once**: exactly where the second
      reading gives the configuration that the first one gave. */
  lemma TwiceIsOnce(c: Config, overlay: Option<Json>, form: Form, d: Config, o: Outcome)
    requires MayBecome(c, overlay, form, Accepted(d)) && MayBecome(d, overlay, form, o)
    ensures o == Accepted(d) <==> SaysNothing(overlay) || form.read(Laid(form.write(d), overlay)) == Some(d)
  {}

  /** **Defaults that reading fills in make no difference**: where a configuration reads back
      from its own document, and that document has on it all that it was read from, the
      second time changes nothing. */
  lemma DefaultsDoNotMatter(c: Config, overlay: Option<Json>, form: Form, d: Config, o: Outcome)
    requires MayBecome(c, overlay, form, Accepted(d)) && MayBecome(d, overlay, form, o)
    requires form.read(form.write(d)) == Some(d)
    requires Merge.Merge(Object(form.write(d)), Object(Laid(form.write(c), overlay))) == Object(form.write(d))
    ensures o == Accepted(d)
  {
    if !SaysNothing(overlay) {
      var own, over := Object(form.write(d)), Object(overlay.value.members - IDENTITY);
      LaidTwice(form.write(c), overlay);
      MergeTransitive(own, Object(Laid(form.write(c), overlay)), over);
      TwiceIsOnce(c, overlay, form, d, o);
    }
  }

  // ---- the type of a package, and who may judge in it

  const FORMAT := "standard-io"
  const VERSION := 1

  function Envelope(format: string): string {
    format + "@" + Digits(VERSION)
  }

  /** A document as it is read: what it says it is, in either spelling, and the rest. */
  datatype Document = Document(kind: Option<string>, format: Option<string>, version: Option<nat>, config: Config)

  function TypeOf(d: Document): Option<string> {
    if d.kind.Some? then d.kind
    else if d.format.Some? && d.version.Some? then Some(d.format.value + "@" + Digits(d.version.value))
    else None
  }

  predicate HasJudge(c: Config) {
    c.checker.Some? || c.interactor.Some?
  }

  /** Only one type of package runs a judging program. */
  predicate Fits(c: Config, format: string) {
    format == FORMAT || !HasJudge(c)
  }

  datatype Parsed =
    | Package(config: Config)
    | NoType
    | RunsNeither
    | UnknownFormat(declared: string)
    | Faulty(fault: Fault)

  /** Accepts exactly the sound documents of the type asked for that declare no judge that
      type does not run. */
  method ParseAs(d: Document, format: string) returns (p: Parsed)
    ensures p.Package? <==> TypeOf(d) == Some(Envelope(format)) && Fits(d.config, format) && Sound(d.config)
    ensures p.Package? ==> p.config == d.config
    ensures p.NoType? <==> TypeOf(d) == None
    ensures p.RunsNeither? <==> TypeOf(d).Some? && !Fits(d.config, format)
    ensures p.UnknownFormat? ==> TypeOf(d) == Some(p.declared) && p.declared != Envelope(format)
    ensures p.Faulty? ==> Has(d.config, p.fault)
  {
    var declared := TypeOf(d);
    if declared == None {
      return NoType;
    }
    if format != FORMAT && (d.config.checker.Some? || d.config.interactor.Some?) {
      return RunsNeither;
    }
    if declared.value != Envelope(format) {
      return UnknownFormat(declared.value);
    }
    var valid := Validated(d.config);
    return match valid case Ok(c) => Package(c) case Refused(fault) => Faulty(fault);
  }

  /** **What a package may say it is**: in one string, or in the two fields before it. */
  lemma TypesAre(c: Config, d: Document, format: string)
    ensures d.kind.Some? ==> TypeOf(d) == d.kind
    ensures TypeOf(Document(None, Some("standard-io"), Some(1), c)) == Some("standard-io@1")
    ensures d.kind == None && (d.format == None || d.version == None) ==> TypeOf(d) == None
    ensures Envelope(format) == format + "@1"
    ensures Fits(c, "standard-io")
    ensures format != "standard-io" ==> (Fits(c, format) <==> c.checker == None && c.interactor == None)
  {
    assert Digits(1) == "1" && "@" + "1" == "@1";
    assert "standard-io" + "@" + "1" == "standard-io@1";
    assert format + "@" + "1" == format + "@1";
  }

  /** A member is stated where it is there and not null. */
  predicate IsStated(doc: map<string, Json>, name: string) {
    name in doc && doc[name] != Null
  }

  /** A judge is read where one is stated, and written where there is one. */
  ghost predicate KeepsJudges(form: Form) {
    && (forall doc :: form.read(doc).Some? ==>
          && (form.read(doc).value.checker.Some? <==> IsStated(doc, "checker"))
          && (form.read(doc).value.interactor.Some? <==> IsStated(doc, "interactor")))
    && (forall c ::
          && (IsStated(form.write(c), "checker") <==> c.checker.Some?)
          && (IsStated(form.write(c), "interactor") <==> c.interactor.Some?))
  }

  predicate StatesJudge(overlay: Option<Json>) {
    !SaysNothing(overlay)
    && (IsStated(overlay.value.members, "checker") || IsStated(overlay.value.members, "interactor"))
  }

  lemma StatedInLaid(doc: map<string, Json>, overlay: Option<Json>, name: string)
    requires !SaysNothing(overlay) && name !in IDENTITY && !IsStated(doc, name)
    ensures IsStated(Laid(doc, overlay), name) <==> IsStated(overlay.value.members, name)
  {
    var over := overlay.value.members - IDENTITY;
    assert name in over <==> name in overlay.value.members;
    if name in over {
      assert Merge.Merge(Null, over[name]) == over[name];
      assert Laid(doc, overlay)[name] == over[name];
    } else {
      assert name in Laid(doc, overlay) <==> name in doc;
    }
  }

  /** **When an overlay leaves a package without a judge its type does not run**: exactly
      where it states none, for every type but the one that runs them. */
  lemma OverlayFitsIff(c: Config, overlay: Option<Json>, form: Form, format: string, d: Config)
    requires KeepsJudges(form) && Fits(c, format) && MayBecome(c, overlay, form, Accepted(d))
    ensures Fits(d, format) <==> format == FORMAT || !StatesJudge(overlay)
  {
    if format != FORMAT && !SaysNothing(overlay) {
      StatedInLaid(form.write(c), overlay, "checker");
      StatedInLaid(form.write(c), overlay, "interactor");
    }
  }

  const PLAIN := Config(Limits(1000, 1), map[], [Group(0, None, None)], None, None, [])

  /** A judge's source, if its member can be read. */
  function ReadJudge(doc: map<string, Json>, name: string): Option<Option<string>> {
    if !IsStated(doc, name) then Some(None)
    else if doc[name].Object? && "source" in doc[name].members && doc[name].members["source"].Str?
    then Some(Some(doc[name].members["source"].s))
    else None
  }

  function WriteJudge(path: Option<string>): Json {
    match path case None => Null case Some(p) => Object(map["source" := Str(p)])
  }

  /** A form for configurations that differ only in their judges. */
  function JudgesOnly(): Form {
    Form((c: Config) => map["checker" := WriteJudge(c.checker), "interactor" := WriteJudge(c.interactor)],
         doc => match (ReadJudge(doc, "checker"), ReadJudge(doc, "interactor"))
                case (Some(k), Some(i)) => Some(PLAIN.(checker := k, interactor := i))
                case _ => None)
  }

  lemma JudgesOnlyKeepsJudges()
    ensures KeepsJudges(JudgesOnly())
  {}

  lemma PlainIsSound()
    ensures Sound(PLAIN) && Sound(PLAIN.(checker := Some("c")))
  {
    SplitOne("c", '/');
    assert Paths.Named(["c"]) == ["c"];
    assert Declared(PLAIN) == [] && Declared(PLAIN.(checker := Some("c"))) == ["c"];
  }

  /** Such an overlay is accepted: a package that parses as another type, and the overlay
      that gives it a checker. */
  lemma OverlayAddsJudge(format: string)
    requires format != FORMAT
    ensures KeepsJudges(JudgesOnly()) && Fits(PLAIN, format) && Sound(PLAIN)
    ensures var overlay := Some(Object(map["checker" := WriteJudge(Some("c"))]));
            var judged := PLAIN.(checker := Some("c"));
            MayBecome(PLAIN, overlay, JudgesOnly(), Accepted(judged)) && !Fits(judged, format)
  {
    var over := map["checker" := WriteJudge(Some("c"))];
    JudgesOnlyKeepsJudges();
    PlainIsSound();
    JudgeIsLaid(JudgesOnly().write(PLAIN), over);
  }

  lemma JudgeIsLaid(doc: map<string, Json>, over: map<string, Json>)
    requires over == map["checker" := WriteJudge(Some("c"))]
    requires doc == map["checker" := Null, "interactor" := Null]
    ensures !SaysNothing(Some(Object(over)))
    ensures Laid(doc, Some(Object(over))) == doc["checker" := WriteJudge(Some("c"))]
  {
    assert "checker" in over;
    assert over - IDENTITY == over;
    assert Merge.Merge(Null, over["checker"]) == over["checker"];
    assert Laid(doc, Some(Object(over))).Keys == doc.Keys;
  }
}
