# Entity extraction and geocode merging, modelled in Dafny

This project models the two processing stages of the Cytora NLP extraction script.

- **Entity extraction** (`extract_entities`) needs a document with both `title` and `content`. It scans the named entities of the title and then those of the content. It keeps the texts of `PERSON`, `ORG` and `GPE` entities in three sets, drops every other label, and stores each non-empty set as a list under `personal_ents`, `organisations` or `geo_locations`.
- **Coordinate extraction** (`extract_coordinates`) replaces the list of place names under `geo_locations` by a list of `{name, location}` records, one per name and in the same order. It does nothing when the key is absent.

The model has three files.

- `json_document.dfy` (module `JsonDocument`): JSON values, the `Document` class whose `fields` map is the Python dict the stages update in place, and predicates over stored lists.
- `entity_extraction.dfy` (module `EntityExtraction`): the entity scan, the set-to-list conversion, the in-place merge, and the lemmas about them.
- `geocoding.dfy` (module `Geocoding`): the geocode loop, the record for one name, the in-place replacement of `geo_locations`, and the lemmas about them.

The outside collaborators become parameters.

- The spaCy model becomes `nlp: Json -> seq<Entity>`. It is applied to the values stored under `title` and `content`, and returns the `(text, label)` pairs of the entities it found.
- `gmaps.geocode` becomes `geocode: Json -> seq<GeocodeResult>`. Each result has an optional `geometry`, and each geometry has an optional `location`.

Python's `list(set)` gives an unspecified order. `ToJsonList` therefore picks elements in an arbitrary order, and every contract about stored lists is stated by set equality and distinctness (`ListsSet`), never by list equality. Raised exceptions become an `Outcome` value: `Fail(MalformedInput)` for a document without `title` or `content`, and `Fail(NotIterable)` for a `geo_locations` value a `for` loop cannot visit. In both cases the document is not changed, as in the source, where the exception comes before any assignment.

Three behaviours of the code are worth stating plainly, and the model follows them.

- An empty set writes nothing, so a key the input already had keeps its old value. The key is absent exactly when no entity of its kind was found only if the input did not already hold it. `KeyAbsentExactlyWhenNoneFound` states the lemma with that hypothesis.
- The code records the `location` of the first result's geometry, and that value may itself be null.
- The code does not handle geocoder failures, and neither does the model.

## Model

| member | source | states |
|---|---|---|
| `EntityExtraction.CollectEntities` | cytora-nlp-extraction.py:43-61 | the loop over the entity stream yields, for each of PERSON, ORG and GPE, exactly the set of texts with that label; the `else: raise` branch is proved unreachable |
| `EntityExtraction.TextsLabelledMembers` | cytora-nlp-extraction.py:41-59 | a text is in a label's set if and only if some entity of the stream carries that text with that label (exact string equality, both directions) |
| `EntityExtraction.TextsLabelledConcat` | cytora-nlp-extraction.py:38-41 | chaining the title entities before the content entities collects the union of what each would collect alone |
| `EntityExtraction.TextsLabelledOrderIrrelevant` | cytora-nlp-extraction.py:41-59 | any reordering of the entity stream (the same entities, as a multiset) collects the same sets |
| `EntityExtraction.IgnoredLabelAddsNothing` | cytora-nlp-extraction.py:48-49 | inserting an entity whose label is not PERSON, ORG or GPE anywhere in the stream changes none of the three sets |
| `EntityExtraction.NoNormalisation` | cytora-nlp-extraction.py:51-58 | any two texts of the same kind are both kept, e.g. two that differ only in case or spacing: de-duplication is exact string equality with no normalisation |
| `EntityExtraction.ToJsonList` | cytora-nlp-extraction.py:67-74 | converting a set to a stored list gives an array of strings with no duplicates whose elements are exactly the set |
| `EntityExtraction.StoreFound` | cytora-nlp-extraction.py:67-74 | a non-empty set is written under its key as such a list; an empty set leaves the key as it was; no other key changes |
| `EntityExtraction.ExtractEntities` | cytora-nlp-extraction.py:31-76 | without `title` or `content` it fails and leaves the document unchanged; otherwise each of the three keys holds exactly the texts of its label when any were found and is untouched when none were, and every other key keeps its value |
| `EntityExtraction.ExtractionKeepsText` | cytora-nlp-extraction.py:67-76 | extraction leaves `title` and `content` unchanged, so a second run is accepted too |
| `EntityExtraction.KeyAbsentExactlyWhenNoneFound` | cytora-nlp-extraction.py:67-74 | for a key the input lacked, the key is absent after extraction if and only if no entity carried its label, and when present it is never an empty list |
| `EntityExtraction.ExtractionIdempotent` | cytora-nlp-extraction.py:31-76 | running extraction twice finds the same three sets, each key is present after both runs or after neither and lists the same strings, and other keys are unchanged |
| `Geocoding.Iterated` | cytora-nlp-extraction.py:87 | the loop over `geo_locations` visits an array's items in order, or a string's one-character strings in order; any other value cannot be looped over |
| `Geocoding.GeoRecord` | cytora-nlp-extraction.py:88-93 | a record has exactly the fields `name` and `location`; `name` is the place; `location` is null when the geocoder returned nothing or its first result has no geometry, and otherwise is the geometry's `location`, or null if it has none |
| `Geocoding.ResolvedAt` | cytora-nlp-extraction.py:86-97 | the new list has the same length as the name list, and its record at index i is the record of name i |
| `Geocoding.ResolveAll` | cytora-nlp-extraction.py:86-95 | the loop's `final_geo` is the ordered list of records of all names |
| `Geocoding.ExtractCoordinates` | cytora-nlp-extraction.py:79-99 | without `geo_locations` the document is unchanged; otherwise only `geo_locations` changes, to the records of its names in order; a value that cannot be looped over fails and changes nothing |
| `Geocoding.RecordsNameExtractedPlaces` | cytora-nlp-extraction.py:86-97 | after extraction stored its places, the records' names are exactly those places, each once |

## Left out

- `parse_file` (file opening and JSON decoding): I/O and library parsing. A decoded document is a `Document` built from a `map<string, Json>`.
- `main` (argument parsing, `spacy.load`, creating `output/`, `glob`, writing the output files): I/O plumbing. So is the choice to run coordinate extraction only when an API key is given.
- The spaCy model (tokenisation and entity labelling): a foreign capability, modelled only as the function `nlp` from the stored value to `(text, label)` pairs.
- ExtractEntities: `nlp` is applied to whatever JSON value `title`/`content` hold; the NLP library's rejection of a non-text value (which raises before any key is written) is not modelled, so the method reports `Pass` for such a document.
- The `googlemaps.Client` construction and its network calls, including invalid keys, network errors and quota errors. These are unhandled exceptions in the source. Geocoding is the pure function `geocode` from a name to its results.
- Logging: a side effect with no behavioural content.
- The iteration order of Python sets: `ToJsonList` chooses elements in an arbitrary order, and contracts speak of set contents only.
- Iterating a dict-valued `geo_locations`: Python visits its keys in insertion order, but JSON objects here carry no key order, so the model reports `NotIterable` for an object. Arrays and strings (one-character names) are visited as in Python.
- Geocoder results whose `geometry` is not a JSON object: the Python `.get` would fail on them. The result datatype assumes the object shape the client returns.
- JSON numbers are modelled as `real`. Floating-point precision is not modelled; numbers are only carried through.
- `ExtractEntities` returns an `Outcome` instead of the same dict. The dict itself is the caller's `Document`, updated in place.
