/** What normalizing makes of a document, and which files it extends
    (crates/ferridriver-config/src/layer.rs:960-1080, 1195-1203). */
module StartupNormalize {
  import opened Json
  import opened Paths
  import opened Anchor
  import opened Startup

  // ---------------------------------------------------------------- the top level

  /** The array shorthand of `extensions` becomes its table; every other key but `test` is kept. */
  lemma NormalizedMembers(v: Value, expand: Expand, key: string)
    requires v.Obj?
    ensures NormalizedDoc(v, expand).Obj?
    ensures key == "extensions" && Member(v, key).Some? && Member(v, key).value.Arr? ==>
              Member(NormalizedDoc(v, expand), key) == Some(Obj(map["paths" := Member(v, key).value]))
    ensures key != "test" && !(key == "extensions" && Member(v, key).Some? && Member(v, key).value.Arr?) ==>
              Member(NormalizedDoc(v, expand), key) == Member(v, key)
    ensures key == "test" ==>
              Member(NormalizedDoc(v, expand), key) ==
              if Member(v, key).Some? then Some(NormalizedTest(Member(v, key).value, expand)) else None
  {
  }

  // ---------------------------------------------------------------- the test section

  /** A `use` bag with the device it names expanded. */
  function Expanded(bag: Option<Value>, expand: Expand): Option<Value> {
    match bag
    case Some(Obj(fields)) => Some(Obj(expand(fields)))
    case _ => bag
  }

  function Bag(v: Option<Value>): map<string, Value> {
    match v
    case Some(Obj(fields)) => fields
    case _ => map[]
  }

  predicate TableOrNone(v: Option<Value>) {
    v.Some? ==> v.value.Obj?
  }

  /** A section with its own bag and its browser's expanded, and all else kept. */
  predicate SectionExpanded(before: Value, after: Value, expand: Expand) {
    if !before.Obj? then after == before
    else
      after.Obj? && after.fields.Keys == before.fields.Keys &&
      Member(after, "use") == Expanded(Member(before, "use"), expand) &&
      (forall k :: k in before.fields && k != "use" && k != "browser" ==> after.fields[k] == before.fields[k]) &&
      ("browser" in before.fields ==> BrowserExpanded(before.fields["browser"], after.fields["browser"], expand))
  }

  predicate BrowserExpanded(before: Value, after: Value, expand: Expand) {
    if !before.Obj? then after == before
    else
      after.Obj? && after.fields.Keys == before.fields.Keys &&
      Member(after, "use") == Expanded(Member(before, "use"), expand) &&
      forall k :: k in before.fields && k != "use" ==> after.fields[k] == before.fields[k]
  }

  lemma UseExpanded(bag: map<string, Value>, expand: Expand)
    ensures BrowserExpanded(Obj(bag), Obj(ExpandUse(bag, expand)), expand)
  {
  }

  lemma SectionIsExpanded(section: map<string, Value>, expand: Expand)
    ensures SectionExpanded(Obj(section), Obj(ExpandSection(section, expand)), expand)
  {
    UseExpanded(section, expand);
    var s := ExpandUse(section, expand);
    if "browser" in s && s["browser"].Obj? {
      UseExpanded(s["browser"].fields, expand);
    }
  }

  /** The bag under `test` moves to `test.browser`, whose own keys win; both are expanded first. */
  predicate UseHoisted(before: Value, after: Value, expand: Expand)
    requires before.Obj? && after.Obj?
  {
    var top, own := Expanded(Member(before, "use"), expand), Expanded(Nested(before, "browser", "use"), expand);
    if Member(before, "use").None? || !Member(before, "use").value.Obj? then
      Member(after, "use") == Member(before, "use") && Nested(after, "browser", "use") == own
    else
      Member(after, "use") == None &&
      if TableOrNone(Member(before, "browser")) && TableOrNone(Nested(before, "browser", "use")) then
        Nested(after, "browser", "use") == Some(Obj(Bag(top) + Bag(own)))
      else Nested(after, "browser", "use") == own
  }

  lemma HoistedUse(before: Value, section: map<string, Value>, expand: Expand)
    requires before.Obj? && SectionExpanded(before, Obj(section), expand)
    ensures UseHoisted(before, Obj(HoistUse(section)), expand)
    ensures forall k :: k != "use" && k != "browser" ==>
              Member(Obj(HoistUse(section)), k) == Member(Obj(section), k)
    ensures forall k :: k != "use" ==>
              Nested(Obj(HoistUse(section)), "browser", k) == Nested(Obj(section), "browser", k)
  {
  }

  /** The whole test section: bags hoisted, every project expanded, and everything else kept. */
  lemma TestNormalized(test: Value, expand: Expand)
    ensures !test.Obj? ==> NormalizedTest(test, expand) == test
    ensures test.Obj? ==>
              var n := NormalizedTest(test, expand);
              n.Obj? && UseHoisted(test, n, expand) &&
              (forall k :: k != "use" && k != "browser" && k != "projects" ==> Member(n, k) == Member(test, k)) &&
              (forall k :: k != "use" ==> Nested(n, "browser", k) == Nested(test, "browser", k)) &&
              ProjectsExpanded(Member(test, "projects"), Member(n, "projects"), expand)
  {
    if test.Obj? {
      SectionIsExpanded(test.fields, expand);
      var s := ExpandSection(test.fields, expand);
      if "projects" in s && s["projects"].Arr? {
        forall i | 0 <= i < |s["projects"].items|
          ensures SectionExpanded(s["projects"].items[i], ExpandProject(s["projects"].items[i], expand), expand)
        {
          if s["projects"].items[i].Obj? {
            SectionIsExpanded(s["projects"].items[i].fields, expand);
          }
        }
      }
      WithProjects(test, s, expand);
    }
  }

  predicate ProjectsExpanded(before: Option<Value>, after: Option<Value>, expand: Expand) {
    match before
    case Some(Arr(items)) =>
      after.Some? && after.value.Arr? && |after.value.items| == |items| &&
      forall i :: 0 <= i < |items| ==> SectionExpanded(items[i], after.value.items[i], expand)
    case _ => after == before
  }

  lemma OtherProjects(test: Value, s: map<string, Value>, expand: Expand, projects: Value)
    requires test.Obj? && SectionExpanded(test, Obj(s), expand) && "projects" in s
    ensures SectionExpanded(Obj(test.fields["projects" := projects]), Obj(s["projects" := projects]), expand)
  {
  }

  lemma WithProjects(test: Value, s: map<string, Value>, expand: Expand)
    requires test.Obj? && s == ExpandSection(test.fields, expand) && SectionExpanded(test, Obj(s), expand)
    requires "projects" in s && s["projects"].Arr? ==>
               forall i :: 0 <= i < |s["projects"].items| ==>
                 SectionExpanded(s["projects"].items[i], ExpandProject(s["projects"].items[i], expand), expand)
    ensures var n := NormalizedTest(test, expand);
            n.Obj? && UseHoisted(test, n, expand) &&
            (forall k :: k != "use" && k != "browser" && k != "projects" ==> Member(n, k) == Member(test, k)) &&
            (forall k :: k != "use" ==> Nested(n, "browser", k) == Nested(test, "browser", k)) &&
            ProjectsExpanded(Member(test, "projects"), Member(n, "projects"), expand)
  {
    if "projects" in s && s["projects"].Arr? {
      var items := s["projects"].items;
      var projects := Arr(seq(|items|, i requires 0 <= i < |items| => ExpandProject(items[i], expand)));
      var t := s["projects" := projects];
      var between := Obj(test.fields["projects" := projects]);
      OtherProjects(test, s, expand, projects);
      HoistedUse(between, t, expand);
    } else {
      HoistedUse(test, s, expand);
    }
  }

  // ---------------------------------------------------------------- the files a document extends

  /** `~` alone or before a slash stands for the home directory, if there is one; nothing else is expanded. */
  lemma TildeMeans(rest: string, at: Place)
    ensures rest == "" || rest[0] == '/' ==>
              Tilde("~" + rest, at) == if at.home.Some? then at.home.value + rest else "~" + rest
    ensures rest != "" && rest[0] != '/' ==> Tilde("~" + rest, at) == "~" + rest
    ensures rest == "" || rest[0] != '~' ==> Tilde(rest, at) == rest
  {
    assert ("~" + rest)[1..] == rest;
  }

  /** Where an entry leads: an absolute one to itself, any other below the directory, with dot segments resolved. */
  lemma ResolvedMeans(entry: string, at: Place)
    requires IsAbsolute(at.dir)
    ensures var text := Tilde(entry, at);
            if IsAbsolute(text) then ResolvedAgainst(entry, at) == text
            else
              IsAbsolute(ResolvedAgainst(entry, at)) &&
              Components(ResolvedAgainst(entry, at)) == Meaning(Components(Joined(at.dir, text)))
  {
    var text := Tilde(entry, at);
    if !IsAbsolute(text) {
      var path := Components(Joined(at.dir, text));
      ComponentsAreLegal(Joined(at.dir, text));
      NormalizedRooted(path);
      NormalizedIsLegal(path);
      ComponentsOfRendered(Normalized(path));
      RenderedAbsolute(Joined(at.dir, text));
    }
  }

  /** `at` are the positions of exactly the texts. */
  predicate TextsAt(items: seq<Value>, texts: seq<string>, at: seq<nat>) {
    |at| == |texts| && (forall k :: 0 <= k < |at| ==> at[k] < |items| && items[at[k]] == Str(texts[k])) &&
    (forall k, m :: 0 <= k < m < |at| ==> at[k] < at[m]) &&
    forall i :: 0 <= i < |items| && items[i].Str? ==> i in at
  }

  lemma {:induction false} TextsAreAt(items: seq<Value>) returns (at: seq<nat>)
    ensures TextsAt(items, Startup.Texts(items), at)
  {
    at := [];
    if items != [] {
      var later := TextsAreAt(items[1..]);
      var moved := seq(|later|, k requires 0 <= k < |later| => later[k] + 1);
      Moved(items, Startup.Texts(items[1..]), later, moved);
      if items[0].Str? {
        at := [0] + moved;
        OneMoreText(items, Startup.Texts(items[1..]), moved);
      } else {
        at := moved;
        NoText(items, Startup.Texts(items[1..]), moved);
      }
    }
  }

  /** `at` are the positions of exactly the texts after the first item. */
  predicate TextsAfter(items: seq<Value>, texts: seq<string>, at: seq<nat>) {
    |at| == |texts| && (forall k :: 0 <= k < |at| ==> 0 < at[k] < |items| && items[at[k]] == Str(texts[k])) &&
    (forall k, m :: 0 <= k < m < |at| ==> at[k] < at[m]) &&
    forall i :: 0 < i < |items| && items[i].Str? ==> i in at
  }

  lemma Moved(items: seq<Value>, texts: seq<string>, later: seq<nat>, moved: seq<nat>)
    requires items != [] && TextsAt(items[1..], texts, later)
    requires |moved| == |later| && forall k :: 0 <= k < |later| ==> moved[k] == later[k] + 1
    ensures TextsAfter(items, texts, moved)
  {
    forall i | 0 < i < |items| && items[i].Str? ensures i in moved {
      assert items[1..][i - 1] == items[i];
      var k :| 0 <= k < |later| && later[k] == i - 1;
      assert moved[k] == i;
    }
  }

  lemma OneMoreText(items: seq<Value>, texts: seq<string>, moved: seq<nat>)
    requires items != [] && items[0].Str? && TextsAfter(items, texts, moved)
    ensures TextsAt(items, [items[0].s] + texts, [0] + moved)
  {
    var at := [0] + moved;
    forall i | 0 <= i < |items| && items[i].Str? ensures i in at {
      if i > 0 {
        var k :| 0 <= k < |moved| && moved[k] == i;
        assert at[k + 1] == i;
      } else {
        assert at[0] == 0;
      }
    }
  }

  lemma NoText(items: seq<Value>, texts: seq<string>, moved: seq<nat>)
    requires items != [] && !items[0].Str? && TextsAfter(items, texts, moved)
    ensures TextsAt(items, [] + texts, moved)
  {
  }

  /** What `extends` names: one text, or the texts of an array in order; anything else names nothing. */
  lemma ExtendedMeans(v: Value, place: Place) returns (at: seq<nat>)
    ensures match Member(v, "extends")
            case Some(Str(entry)) => Extended(v, place) == [ResolvedAgainst(entry, place)]
            case Some(Arr(items)) =>
              |at| == |Extended(v, place)| &&
              (forall k, m :: 0 <= k < m < |at| ==> at[k] < at[m]) &&
              (forall i :: 0 <= i < |items| && items[i].Str? ==> i in at) &&
              (forall k :: 0 <= k < |at| ==>
                at[k] < |items| && items[at[k]].Str? && Extended(v, place)[k] == ResolvedAgainst(items[at[k]].s, place))
            case _ => Extended(v, place) == []
    ensures Member(WithoutExtends(v), "extends") == None
    ensures forall k :: k != "extends" ==> Member(WithoutExtends(v), k) == Member(v, k)
  {
    at := [];
    if Member(v, "extends").Some? && Member(v, "extends").value.Arr? {
      at := TextsAreAt(Member(v, "extends").value.items);
    }
  }
}
