/** The pattern every projector in the functions follows, stated once: a
    whitelist of fields copied as they are, optional fields copied only when
    defined, fields rendered from string templates, and the match score. Each
    hand-written projector is proved equal to one instance of this shape. */
module Projection {
  import opened JsValues

  /** One piece of a template literal: literal text or a `${doc.field}` slot. */
  datatype Part = Lit(text: string) | Slot(field: string)

  /** An output field built from a template. */
  datatype Derived = Derived(name: string, template: seq<Part>)

  datatype Shape = Shape(copied: seq<string>, optional: seq<string>, derived: seq<Derived>, scored: bool)

  const ScoreKey: string := "score"

  /** The text a template renders to over `doc`; a missing field renders as "undefined". */
  function Fill(t: seq<Part>, doc: Obj): string
  {
    if t == [] then "" else PartText(t[0], doc) + Fill(t[1..], doc)
  }

  function PartText(p: Part, doc: Obj): string
  {
    match p
    case Lit(x) => x
    case Slot(f) => Render(Get(doc, f))
  }

  lemma FillTwo(a: Part, b: Part, doc: Obj)
    ensures Fill([a, b], doc) == PartText(a, doc) + PartText(b, doc)
  {
    assert [a, b][1..] == [b];
    assert [b][1..] == [];
    assert Fill([b], doc) == PartText(b, doc) + "";
    assert PartText(b, doc) + "" == PartText(b, doc);
  }

  lemma FillThree(a: Part, b: Part, c: Part, doc: Obj)
    ensures Fill([a, b, c], doc) == PartText(a, doc) + PartText(b, doc) + PartText(c, doc)
  {
    assert [a, b, c][1..] == [b, c];
    FillTwo(b, c, doc);
  }

  lemma FillFour(a: Part, b: Part, c: Part, d: Part, doc: Obj)
    ensures Fill([a, b, c, d], doc) == PartText(a, doc) + PartText(b, doc) + PartText(c, doc) + PartText(d, doc)
  {
    assert [a, b, c, d][1..] == [b, c, d];
    FillThree(b, c, d, doc);
  }

  function DerivedNames(ds: seq<Derived>): set<string>
  {
    set d | d in ds :: d.name
  }

  /** The template of the derived field called `k`. */
  function TemplateOf(ds: seq<Derived>, k: string): (t: seq<Part>)
    requires k in DerivedNames(ds)
    ensures Derived(k, t) in ds
  {
    if ds[0].name == k then ds[0].template
    else
      assert k in DerivedNames(ds[1..]) by {
        var d :| d in ds && d.name == k;
        assert d in ds[1..];
      }
      TemplateOf(ds[1..], k)
  }

  /** The output field names of the four groups do not collide, and no two
      derived fields share a name. */
  predicate WellFormed(sh: Shape)
  {
    && (forall k :: k in sh.copied ==> k !in sh.optional && k !in DerivedNames(sh.derived) && k != ScoreKey)
    && (forall k :: k in sh.optional ==> k !in DerivedNames(sh.derived) && k != ScoreKey)
    && ScoreKey !in DerivedNames(sh.derived)
    && (forall i, j :: 0 <= i < j < |sh.derived| ==> sh.derived[i].name != sh.derived[j].name)
  }

  /** The keys a projection of `doc` has. */
  function Keys(sh: Shape, doc: Obj): set<string>
  {
    KeySet(sh.copied)
    + DefinedKeys(sh.optional, doc)
    + DerivedNames(sh.derived)
    + (if sh.scored then {ScoreKey} else {})
  }

  function FieldValue(sh: Shape, doc: Obj, score: Value, k: string): Option<Value>
  {
    if sh.scored && k == ScoreKey then Some(score)
    else if k in DerivedNames(sh.derived) then Some(Str(Fill(TemplateOf(sh.derived, k), doc)))
    else Get(doc, k)
  }

  /** The record the shape makes from a stored document and a match score. */
  function Project(sh: Shape, doc: Obj, score: Value): Obj
  {
    map k | k in Keys(sh, doc) :: FieldValue(sh, doc, score, k)
  }

  /** What a projection holds: every whitelisted field as the document has it,
      each optional field exactly when the document defines it, every template
      rendered, the score when the shape is scored, and nothing else. */
  lemma ProjectFields(sh: Shape, doc: Obj, score: Value)
    requires WellFormed(sh)
    ensures var r := Project(sh, doc, score);
      && (forall k :: k in sh.copied ==> k in r && r[k] == Get(doc, k))
      && (forall k :: k in sh.optional ==> (k in r <==> Get(doc, k).Some?))
      && (forall k :: k in sh.optional && k in r ==> r[k] == Get(doc, k))
      && (forall d :: d in sh.derived ==> d.name in r && r[d.name] == Some(Str(Fill(d.template, doc))))
      && (sh.scored ==> ScoreKey in r && r[ScoreKey] == Some(score))
      && (!sh.scored ==> ScoreKey !in r)
      && (forall k :: k in r ==> k in sh.copied || k in sh.optional || k in DerivedNames(sh.derived) || (sh.scored && k == ScoreKey))
  {
    var r := Project(sh, doc, score);
    forall d | d in sh.derived
      ensures d.name in r && r[d.name] == Some(Str(Fill(d.template, doc)))
    {
      assert d.name in DerivedNames(sh.derived);
      var t := TemplateOf(sh.derived, d.name);
      var i :| 0 <= i < |sh.derived| && sh.derived[i] == d;
      var j :| 0 <= j < |sh.derived| && sh.derived[j] == Derived(d.name, t);
      assert i == j;
    }
  }

  /** A record with the shape's keys and the shape's value for each of them is its projection. */
  lemma ProjectCharacterised(sh: Shape, doc: Obj, score: Value, r: Obj)
    requires WellFormed(sh)
    requires r.Keys == Keys(sh, doc)
    requires forall k :: k in sh.copied ==> k in r && r[k] == Get(doc, k)
    requires forall k :: k in sh.optional && k in r ==> r[k] == Get(doc, k)
    requires forall d :: d in sh.derived ==> d.name in r && r[d.name] == Some(Str(Fill(d.template, doc)))
    requires sh.scored ==> ScoreKey in r && r[ScoreKey] == Some(score)
    ensures r == Project(sh, doc, score)
  {
    ProjectFields(sh, doc, score);
    var p := Project(sh, doc, score);
    forall k | k in r ensures r[k] == p[k] {
      if k in DerivedNames(sh.derived) {
        var d :| d in sh.derived && d.name == k;
      }
    }
  }
}
