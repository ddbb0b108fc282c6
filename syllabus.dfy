/**
 * The shapes of the static syllabus (src/data/syllabus.ts:1-17). Its content is not part of
 * this model; every operation that uses the syllabus receives it as a parameter.
 */
module Syllabus {
  import opened Common

  datatype Topic = Topic(id: string, name: string, youtubeUrl: Option<string>, ncertUrl: Option<string>)

  datatype Chapter = Chapter(id: string, name: string, topics: seq<Topic>)

  datatype SubjectSyllabus = SubjectSyllabus(class11: seq<Chapter>, class12: seq<Chapter>)

  /**
   * The `Record<string, SubjectSyllabus>` object, as its entries in JavaScript's enumeration order
   * (insertion order for these plain string keys), which is the order `Object.values` visits them.
   */
  type Syllabus = seq<(string, SubjectSyllabus)>

  /** An object cannot hold the same key twice. */
  predicate KeysDistinct(syl: Syllabus) {
    forall i, j :: 0 <= i < j < |syl| ==> syl[i].0 != syl[j].0
  }

  /** `syl[key]`: the entry stored under `key`, or None (JavaScript's `undefined`). */
  function Lookup(syl: Syllabus, key: string): (r: Option<SubjectSyllabus>)
    ensures r.None? <==> forall i :: 0 <= i < |syl| ==> syl[i].0 != key
    ensures r.Some? ==> exists i :: 0 <= i < |syl| && syl[i] == (key, r.value)
  {
    if syl == [] then None
    else if syl[0].0 == key then Some(syl[0].1)
    else
      var r := Lookup(syl[1..], key);
      assert forall i :: 1 <= i < |syl| ==> syl[i] == syl[1..][i - 1];
      r
  }

  /** `[...sub.class11, ...sub.class12]`. */
  function AllChapters(sub: SubjectSyllabus): seq<Chapter> {
    sub.class11 + sub.class12
  }
}
