/** The entity-extraction stage: keep the PERSON, ORG and GPE entities of the title and the
    content, de-duplicate their texts into three sets and store each non-empty set in the document. */
module EntityExtraction {
  import opened JsonDocument

  /** One named entity as the language model reports it: its span text and its label, `tag`. */
  datatype Entity = Entity(text: string, tag: string)

  datatype ExtractError = MalformedInput

  /** The three kinds of entity the stage keeps. */
  datatype Kind = People | Organisations | Places

  const PersonLabel: string := "PERSON"
  const OrgLabel: string := "ORG"
  const GpeLabel: string := "GPE"

  const PeopleKey: string := "personal_ents"
  const OrganisationsKey: string := "organisations"
  const PlacesKey: string := "geo_locations"

  const ExtractedKeys: set<string> := {PeopleKey, OrganisationsKey, PlacesKey}

  function Label(kind: Kind): string
  {
    match kind
    case People => PersonLabel
    case Organisations => OrgLabel
    case Places => GpeLabel
  }

  function Key(kind: Kind): string
  {
    match kind
    case People => PeopleKey
    case Organisations => OrganisationsKey
    case Places => PlacesKey
  }

  /** The texts of the entities of `ents` that carry the label `tag`, collected by a left-to-right scan. */
  function TextsLabelled(ents: seq<Entity>, tag: string): set<string>
  {
    if ents == [] then {}
    else
      var last := ents[|ents| - 1];
      TextsLabelled(ents[..|ents| - 1], tag) + (if last.tag == tag then {last.text} else {})
  }

  /** A text is collected exactly when some entity carries it with the label: de-duplication is by
      exact string equality and nothing else is added. */
  lemma {:induction false} TextsLabelledMembers(ents: seq<Entity>, tag: string, x: string)
    ensures x in TextsLabelled(ents, tag) <==> exists i :: 0 <= i < |ents| && ents[i] == Entity(x, tag)
  {
    if ents != [] {
      var init := ents[..|ents| - 1];
      TextsLabelledMembers(init, tag, x);
      if x in TextsLabelled(init, tag) {
        var i :| 0 <= i < |init| && init[i] == Entity(x, tag);
        assert ents[i] == Entity(x, tag);
      }
      if exists i :: 0 <= i < |ents| && ents[i] == Entity(x, tag) {
        var i :| 0 <= i < |ents| && ents[i] == Entity(x, tag);
        if i < |init| {
          assert init[i] == Entity(x, tag);
        }
      }
    }
  }

  /** Scanning the title entities and then the content entities collects the union of both. */
  lemma {:induction false} TextsLabelledConcat(a: seq<Entity>, b: seq<Entity>, tag: string)
    ensures TextsLabelled(a + b, tag) == TextsLabelled(a, tag) + TextsLabelled(b, tag)
  {
    if b != [] {
      var b' := b[..|b| - 1];
      assert (a + b)[..|a + b| - 1] == a + b';
      TextsLabelledConcat(a, b', tag);
    } else {
      assert a + b == a;
    }
  }

  /** The order of the entity stream has no effect on what is collected: any reordering of the
      same entities collects the same texts. */
  lemma TextsLabelledOrderIrrelevant(a: seq<Entity>, b: seq<Entity>, tag: string)
    requires multiset(a) == multiset(b)
    ensures TextsLabelled(a, tag) == TextsLabelled(b, tag)
  {
    forall x
      ensures x in TextsLabelled(a, tag) <==> x in TextsLabelled(b, tag)
    {
      TextsLabelledMembers(a, tag, x);
      TextsLabelledMembers(b, tag, x);
      var e := Entity(x, tag);
      assert (exists i :: 0 <= i < |a| && a[i] == e) <==> e in multiset(a);
      assert (exists i :: 0 <= i < |b| && b[i] == e) <==> e in multiset(b);
    }
  }

  /** An entity whose label is not one of the three kept ones contributes to no output set,
      wherever it stands in the stream. */
  lemma IgnoredLabelAddsNothing(before: seq<Entity>, e: Entity, after: seq<Entity>, kind: Kind)
    requires e.tag != PersonLabel && e.tag != OrgLabel && e.tag != GpeLabel
    ensures TextsLabelled(before + [e] + after, Label(kind)) == TextsLabelled(before + after, Label(kind))
  {
    TextsLabelledConcat(before + [e], after, Label(kind));
    TextsLabelledConcat(before, after, Label(kind));
    assert (before + [e])[..|before + [e]| - 1] == before;
  }

  /** The scan of the entity stream into the three sets of people, organisations and places. */
  method CollectEntities(ents: seq<Entity>) returns (people: set<string>, organisations: set<string>, places: set<string>)
    ensures people == TextsLabelled(ents, PersonLabel)
    ensures organisations == TextsLabelled(ents, OrgLabel)
    ensures places == TextsLabelled(ents, GpeLabel)
  {
    people, organisations, places := {}, {}, {};
    for i := 0 to |ents|
      invariant people == TextsLabelled(ents[..i], PersonLabel)
      invariant organisations == TextsLabelled(ents[..i], OrgLabel)
      invariant places == TextsLabelled(ents[..i], GpeLabel)
    {
      var ent := ents[i];
      assert ents[..i + 1][..i] == ents[..i];
      if ent.tag !in [PersonLabel, GpeLabel, OrgLabel] {
        continue;
      }
      if ent.tag == PersonLabel {
        people := people + {ent.text};
      } else if ent.tag == OrgLabel {
        organisations := organisations + {ent.text};
      } else if ent.tag == GpeLabel {
        places := places + {ent.text};
      } else {
        // the label filter above leaves only the three handled labels
        assert false;
      }
    }
    assert ents[..|ents|] == ents;
  }

  /** Converting a set of strings to a JSON list: every element once, in an unspecified order. */
  method ToJsonList(s: set<string>) returns (v: Json)
    ensures ListsSet(v, s)
  {
    var items: seq<Json> := [];
    var rest := s;
    while rest != {}
      invariant rest <= s
      invariant forall i :: 0 <= i < |items| ==> items[i].Str? && items[i].s in s && items[i].s !in rest
      invariant Distinct(items)
      invariant forall x :: x in s ==> x in rest || Str(x) in items
      decreases rest
    {
      var x :| x in rest;
      items := items + [Str(x)];
      rest := rest - {x};
    }
    v := Arr(items);
    forall x | x in s
      ensures x in Listed(v)
    {
      var i :| 0 <= i < |items| && items[i] == Str(x);
    }
  }

  ghost predicate HasText(doc: map<string, Json>)
  {
    "title" in doc && "content" in doc
  }

  /** The entity stream: the entities of the title, then those of the content. */
  ghost function Analysed(doc: map<string, Json>, nlp: Json -> seq<Entity>): seq<Entity>
    requires HasText(doc)
  {
    nlp(doc["title"]) + nlp(doc["content"])
  }

  /** The texts of one kind found in the document's title and content. */
  ghost function Found(doc: map<string, Json>, nlp: Json -> seq<Entity>, kind: Kind): set<string>
    requires HasText(doc)
  {
    TextsLabelled(Analysed(doc, nlp), Label(kind))
  }

  /** How one key ends up: a non-empty set is written as a list; an empty set leaves the key as it was. */
  ghost predicate Merged(before: map<string, Json>, after: map<string, Json>, key: string, found: set<string>)
  {
    if found == {} then SameAt(before, after, key) else key in after && ListsSet(after[key], found)
  }

  /** `after` is a possible result of extracting entities from `before`. */
  ghost predicate Extraction(before: map<string, Json>, after: map<string, Json>, nlp: Json -> seq<Entity>)
  {
    && HasText(before)
    && (forall kind :: Merged(before, after, Key(kind), Found(before, nlp, kind)))
    && (forall k :: k !in ExtractedKeys ==> SameAt(before, after, k))
  }

  /** Stores a set under `key` as a list when it is non-empty; an empty set writes nothing. */
  method StoreFound(data: Document, key: string, found: set<string>)
    modifies data
    ensures Merged(old(data.fields), data.fields, key, found)
    ensures forall k :: k != key ==> SameAt(old(data.fields), data.fields, k)
  {
    if |found| > 0 {
      var list := ToJsonList(found);
      data.fields := data.fields[key := list];
    }
  }

  /** A key merged in one step keeps its merged value through later steps that leave it alone. */
  lemma MergedKept(a: map<string, Json>, b: map<string, Json>, c: map<string, Json>, key: string, found: set<string>)
    requires Merged(a, b, key, found)
    requires SameAt(b, c, key)
    ensures Merged(a, c, key, found)
  {
  }

  /** A key merged in one step is merged relative to any earlier state that had it unchanged. */
  lemma MergedSince(a: map<string, Json>, b: map<string, Json>, c: map<string, Json>, key: string, found: set<string>)
    requires SameAt(a, b, key)
    requires Merged(b, c, key, found)
    ensures Merged(a, c, key, found)
  {
  }

  /** The entity-extraction stage, updating the document in place. */
  method ExtractEntities(data: Document, nlp: Json -> seq<Entity>) returns (r: Outcome<ExtractError>)
    modifies data
    ensures !HasText(old(data.fields)) ==> r == Fail(MalformedInput) && data.fields == old(data.fields)
    ensures HasText(old(data.fields)) ==> r == Pass && Extraction(old(data.fields), data.fields, nlp)
  {
    if "title" !in data.fields || "content" !in data.fields {
      return Fail(MalformedInput);
    }
    ghost var f0 := data.fields;
    var analysedTitle := nlp(data.fields["title"]);
    var analysedContent := nlp(data.fields["content"]);
    var people, organisations, places := CollectEntities(analysedTitle + analysedContent);

    StoreFound(data, PeopleKey, people);
    ghost var f1 := data.fields;
    StoreFound(data, OrganisationsKey, organisations);
    ghost var f2 := data.fields;
    StoreFound(data, PlacesKey, places);
    ghost var f3 := data.fields;

    assert SameAt(f1, f2, PeopleKey) && SameAt(f2, f3, PeopleKey) && SameAt(f2, f3, OrganisationsKey);
    assert SameAt(f0, f1, OrganisationsKey) && SameAt(f0, f1, PlacesKey) && SameAt(f1, f2, PlacesKey);
    MergedKept(f0, f1, f2, PeopleKey, people);
    MergedKept(f0, f2, f3, PeopleKey, people);
    MergedSince(f0, f1, f2, OrganisationsKey, organisations);
    MergedKept(f0, f2, f3, OrganisationsKey, organisations);
    MergedSince(f0, f2, f3, PlacesKey, places);
    assert Analysed(f0, nlp) == analysedTitle + analysedContent;
    forall kind
      ensures Merged(f0, f3, Key(kind), Found(f0, nlp, kind))
    {
      match kind
      case People =>
        assert Found(f0, nlp, kind) == people;
      case Organisations =>
        assert Found(f0, nlp, kind) == organisations;
      case Places =>
        assert Found(f0, nlp, kind) == places;
    }
    forall k | k !in ExtractedKeys
      ensures SameAt(f0, f3, k)
    {
      assert SameAt(f0, f1, k) && SameAt(f1, f2, k) && SameAt(f2, f3, k);
    }
    r := Pass;
  }

  /** Extraction leaves the title and the content as they were. */
  lemma ExtractionKeepsText(before: map<string, Json>, after: map<string, Json>, nlp: Json -> seq<Entity>)
    requires Extraction(before, after, nlp)
    ensures HasText(after)
    ensures after["title"] == before["title"] && after["content"] == before["content"]
  {
    assert SameAt(before, after, "title");
    assert SameAt(before, after, "content");
  }

  /** When the input lacks a key, the key is absent after extraction exactly when no entity of its
      kind occurred; when present it is never an empty list. */
  lemma KeyAbsentExactlyWhenNoneFound(before: map<string, Json>, after: map<string, Json>, nlp: Json -> seq<Entity>, kind: Kind)
    requires Extraction(before, after, nlp)
    requires Key(kind) !in before
    ensures Key(kind) !in after <==>
      forall i :: 0 <= i < |Analysed(before, nlp)| ==> Analysed(before, nlp)[i].tag != Label(kind)
    ensures Key(kind) in after ==> after[Key(kind)].Arr? && after[Key(kind)].items != []
  {
    var ents := Analysed(before, nlp);
    var found := Found(before, nlp, kind);
    assert Merged(before, after, Key(kind), found);
    if found == {} {
      forall i | 0 <= i < |ents|
        ensures ents[i].tag != Label(kind)
      {
        if ents[i].tag == Label(kind) {
          TextsLabelledMembers(ents, Label(kind), ents[i].text);
        }
      }
    } else {
      var x :| x in found;
      TextsLabelledMembers(ents, Label(kind), x);
      var v := after[Key(kind)];
      assert x in Listed(v);
      var i :| 0 <= i < |v.items| && v.items[i].Str? && v.items[i].s == x;
    }
  }

  /** Two entity texts of the same kind are both kept whenever they differ at all, in case or
      spacing included: no normalisation is applied before de-duplication. */
  lemma NoNormalisation(x: string, y: string, kind: Kind)
    ensures TextsLabelled([Entity(x, Label(kind)), Entity(y, Label(kind))], Label(kind)) == {x, y}
  {
    var ents := [Entity(x, Label(kind)), Entity(y, Label(kind))];
    assert ents[..1] == [ents[0]];
    assert [ents[0]][..0] == [];
    assert TextsLabelled([ents[0]], Label(kind)) == {x};
  }

  /** Running extraction a second time on its own output finds the same three sets, so every key ends
      up listing the same strings, and every other key keeps its value. */
  lemma ExtractionIdempotent(d0: map<string, Json>, d1: map<string, Json>, d2: map<string, Json>, nlp: Json -> seq<Entity>)
    requires Extraction(d0, d1, nlp)
    requires Extraction(d1, d2, nlp)
    ensures forall kind :: Found(d1, nlp, kind) == Found(d0, nlp, kind)
    ensures forall kind :: Key(kind) in d1 <==> Key(kind) in d2
    ensures forall kind :: Key(kind) in d1 ==> Listed(d1[Key(kind)]) == Listed(d2[Key(kind)])
    ensures forall k :: k !in ExtractedKeys ==> SameAt(d1, d2, k)
  {
    ExtractionKeepsText(d0, d1, nlp);
    assert Analysed(d1, nlp) == Analysed(d0, nlp);
    forall kind
      ensures Key(kind) in d1 <==> Key(kind) in d2
      ensures Key(kind) in d1 ==> Listed(d1[Key(kind)]) == Listed(d2[Key(kind)])
    {
      assert Merged(d0, d1, Key(kind), Found(d0, nlp, kind));
      assert Merged(d1, d2, Key(kind), Found(d1, nlp, kind));
    }
  }
}
