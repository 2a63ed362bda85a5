/**
  The decoding rules that serde's derived visitors and serde_xml_rs apply to
  one field of a struct, written out once so that every struct decoder uses
  the same alias resolution:
  - a field is looked up under its name and each of its aliases;
  - no entry means the field is absent, two or more is a duplicate-field error;
  - a text field takes an attribute's value or a child element's character data;
  - a struct field takes a child element, whose body its own decoder reads;
  - a list field takes every child given under its spellings, in document order;
  - every other entry is ignored (no struct of the manifest denies unknown fields).
*/
module Fields {
  import opened Wrappers
  import opened Xml

  /** serde_xml_rs::Error, reduced to the cases the model tells apart. */
  datatype DecodeError =
    | Malformed(diagnostic: string)               // the XML reader refused the text
    | MissingField(field: string)                 // a required field was not given
    | DuplicateField(field: string)               // a field was given more than once
    | InvalidType(field: string)                  // text where an element was expected, or the reverse
    | InvalidValue(field: string, text: string)   // text that is not a bool, an integer or a variant name
    | UnknownVariant(variant: string)             // a child element naming no variant of a choice
    | AmbiguousChoice(field: string)              // several children where one variant is chosen
    | UnexpectedToken(expected: string)           // an end tag, text or element other than the one expected next
    | InvalidLength(found: nat)                   // attributes on an element that must have none

  type Decoded<T> = Result<T, DecodeError>

  /** A field's alias table: the snake_case name serde derives and the `alias` names declared on it. */
  datatype FieldName = FieldName(name: string, aliases: seq<string>) {
    function Spellings(): seq<string> {
      [name] + aliases
    }
  }

  /** Nothing in `b` is given under any spelling of `f`. */
  predicate Absent(b: Body, f: FieldName) {
    Values(b, f.Spellings()) == []
  }

  /** The one value given for `f`, if any. */
  function Lookup(b: Body, f: FieldName): (r: Decoded<Option<Value>>)
    ensures r.Ok? <==> |Values(b, f.Spellings())| <= 1
    ensures r.Ok? ==> Values(b, f.Spellings()) == (if r.value.Some? then [r.value.value] else [])
    ensures r.Err? ==> r.error == DuplicateField(f.name)
  {
    var vs := Values(b, f.Spellings());
    if vs == [] then Ok(None)
    else if |vs| == 1 then Ok(Some(vs[0]))
    else Err(DuplicateField(f.name))
  }

  /** The text a value gives a string-typed field: an attribute's value, or a leaf element's character data. */
  function TextOf(f: FieldName, v: Value): (r: Decoded<string>)
    ensures v.Text? ==> r == Ok(v.text)
    ensures v.Nested? ==> (r.Ok? <==> v.body.children == [])
    ensures v.Nested? && r.Ok? ==> r.value == v.body.text
    ensures r.Err? ==> r.error == InvalidType(f.name)
  {
    match v
    case Text(s) => Ok(s)
    case Nested(nb) => if nb.children == [] then Ok(nb.text) else Err(InvalidType(f.name))
  }

  /** The text given for `f`, or None when `f` is absent. */
  function FieldText(b: Body, f: FieldName): (r: Decoded<Option<string>>)
    ensures r == Ok(None) <==> Absent(b, f)
    ensures var vs := Values(b, f.Spellings());
            |vs| == 1 ==> r == (if TextOf(f, vs[0]).Ok? then Ok(Some(TextOf(f, vs[0]).value)) else Err(TextOf(f, vs[0]).error))
    ensures var vs := Values(b, f.Spellings());
            r.Ok? && r.value.Some? ==> |vs| == 1 && TextOf(f, vs[0]) == Ok(r.value.value)
    ensures |Values(b, f.Spellings())| > 1 ==> r == Err(DuplicateField(f.name))
  {
    var o :- Lookup(b, f);
    match o
    case None => Ok(None)
    case Some(v) =>
      var s :- TextOf(f, v);
      Ok(Some(s))
  }

  /** `f` is given exactly once, with the text `s`. */
  predicate Gives(b: Body, f: FieldName, s: string) {
    FieldText(b, f) == Ok(Some(s))
  }

  /** `f` is given exactly once, with a text that `parse` turns into `x`. */
  predicate GivesParsed<T(==)>(b: Body, f: FieldName, parse: string -> Option<T>, x: T) {
    var t := FieldText(b, f);
    t.Ok? && t.value.Some? && parse(t.value.value) == Some(x)
  }

  /** `f` is given exactly once, with a text that `parse` refuses. */
  predicate Refuses<T>(b: Body, f: FieldName, parse: string -> Option<T>) {
    var t := FieldText(b, f);
    t.Ok? && t.value.Some? && parse(t.value.value).None?
  }

  /** The given text of `f` converted by `parse`; text that `parse` refuses is an error, never absence. */
  function Parsed<T>(b: Body, f: FieldName, parse: string -> Option<T>): (r: Decoded<Option<T>>)
    ensures r == Ok(None) <==> Absent(b, f)
    ensures r.Ok? <==> FieldText(b, f).Ok? && !Refuses(b, f, parse)
    ensures Refuses(b, f, parse) ==> r == Err(InvalidValue(f.name, FieldText(b, f).value.value))
    ensures r.Ok? && r.value.Some? ==> GivesParsed(b, f, parse, r.value.value)
  {
    var o :- FieldText(b, f);
    match o
    case None => Ok(None)
    case Some(s) =>
      match parse(s)
      case None => Err(InvalidValue(f.name, s))
      case Some(x) => Ok(Some(x))
  }

  /** The decoded child element given for `f`, or None when `f` is absent. */
  function Child<T>(b: Body, f: FieldName, decode: Body -> Decoded<T>): (r: Decoded<Option<T>>)
    ensures r == Ok(None) <==> Absent(b, f)
  {
    var o :- Lookup(b, f);
    match o
    case None => Ok(None)
    case Some(Text(_)) => Err(InvalidType(f.name))
    case Some(Nested(nb)) =>
      var x :- decode(nb);
      Ok(Some(x))
  }

  /** `f` is given exactly once, as a child element that `decode` turns into `x`. */
  predicate GivesChild<T(==)>(b: Body, f: FieldName, decode: Body -> Decoded<T>, x: T) {
    var vs := Values(b, f.Spellings());
    |vs| == 1 && vs[0].Nested? && decode(vs[0].body) == Ok(x)
  }

  /** A field without `Option` or `default`: its absence fails the decode. */
  function Require<T>(r: Decoded<Option<T>>, f: FieldName): (out: Decoded<T>)
    ensures out.Ok? <==> r.Ok? && r.value.Some?
    ensures out.Ok? ==> r.value == Some(out.value)
    ensures r == Ok(None) ==> out == Err(MissingField(f.name))
  {
    var o :- r;
    match o
    case None => Err(MissingField(f.name))
    case Some(x) => Ok(x)
  }

  /** A field with `#[serde(default = ...)]`: `default` is used when, and only when, it is absent. */
  function WithDefault<T>(r: Decoded<Option<T>>, default: T): (out: Decoded<T>)
    ensures out.Ok? <==> r.Ok?
    ensures r == Ok(None) ==> out == Ok(default)
    ensures r.Ok? && r.value.Some? ==> out == Ok(r.value.value)
  {
    var o :- r;
    Ok(o.GetOr(default))
  }

  /** A required text field. */
  function RequiredText(b: Body, f: FieldName): (r: Decoded<string>)
    ensures r.Ok? ==> Gives(b, f, r.value)
    ensures Absent(b, f) ==> r == Err(MissingField(f.name))
  {
    Require(FieldText(b, f), f)
  }

  /** A text field with a declared default. */
  function TextOr(b: Body, f: FieldName, default: string): (r: Decoded<string>)
    ensures Absent(b, f) ==> r == Ok(default)
    ensures r.Ok? && !Absent(b, f) ==> Gives(b, f, r.value)
  {
    WithDefault(FieldText(b, f), default)
  }

  /** A required field whose text `parse` converts. */
  function RequiredParsed<T(==)>(b: Body, f: FieldName, parse: string -> Option<T>): (r: Decoded<T>)
    ensures r.Ok? ==> GivesParsed(b, f, parse, r.value)
    ensures Absent(b, f) ==> r == Err(MissingField(f.name))
  {
    Require(Parsed(b, f, parse), f)
  }

  /** A field whose text `parse` converts, with a declared default. */
  function ParsedOr<T(==)>(b: Body, f: FieldName, parse: string -> Option<T>, default: T): (r: Decoded<T>)
    ensures Absent(b, f) ==> r == Ok(default)
    ensures r.Ok? && !Absent(b, f) ==> GivesParsed(b, f, parse, r.value)
  {
    WithDefault(Parsed(b, f, parse), default)
  }

  /** An `Option` field whose text `parse` converts. */
  function OptionalParsed<T(==)>(b: Body, f: FieldName, parse: string -> Option<T>): (r: Decoded<Option<T>>)
    ensures r.Ok? ==> (r.value.None? <==> Absent(b, f))
    ensures r.Ok? && r.value.Some? ==> GivesParsed(b, f, parse, r.value.value)
  {
    Parsed(b, f, parse)
  }

  /** A required struct field. */
  function RequiredChild<T(==)>(b: Body, f: FieldName, decode: Body -> Decoded<T>): (r: Decoded<T>)
    ensures r.Ok? ==> GivesChild(b, f, decode, r.value)
    ensures Absent(b, f) ==> r == Err(MissingField(f.name))
  {
    Require(Child(b, f, decode), f)
  }

  /** An `Option` struct field. */
  function OptionalChild<T(==)>(b: Body, f: FieldName, decode: Body -> Decoded<T>): (r: Decoded<Option<T>>)
    ensures r.Ok? ==> (r.value.None? <==> Absent(b, f))
    ensures r.Ok? && r.value.Some? ==> GivesChild(b, f, decode, r.value.value)
  {
    Child(b, f, decode)
  }

  /** Decodes every value of a list field in turn; the first that fails fails the list. */
  function DecodeEach<T>(vs: seq<Value>, f: FieldName, decode: Body -> Decoded<T>): (r: Decoded<seq<T>>)
    ensures r.Ok? ==> |r.value| == |vs|
    ensures r.Ok? ==> forall i :: 0 <= i < |vs| ==> vs[i].Nested? && decode(vs[i].body) == Ok(r.value[i])
    ensures (forall i :: 0 <= i < |vs| ==> vs[i].Nested? && decode(vs[i].body).Ok?) ==> r.Ok?
  {
    if vs == [] then Ok([])
    else
      var x :- match vs[0]
               case Text(_) => Err(InvalidType(f.name))
               case Nested(nb) => decode(nb);
      var xs :- DecodeEach(vs[1..], f, decode);
      Ok([x] + xs)
  }

  /** `xs` is, element by element and in document order, the decoding of the children given for `f`. */
  predicate GivesList<T(==)>(b: Body, f: FieldName, decode: Body -> Decoded<T>, xs: seq<T>) {
    var vs := Values(b, f.Spellings());
    |vs| == |xs| && forall i :: 0 <= i < |xs| ==> vs[i].Nested? && decode(vs[i].body) == Ok(xs[i])
  }

  /** A `Vec` field: every child given for `f`, decoded in document order; none at all is a missing field. */
  function Children<T>(b: Body, f: FieldName, decode: Body -> Decoded<T>): (r: Decoded<seq<T>>)
    ensures r.Ok? ==> r.value != [] && GivesList(b, f, decode, r.value)
    ensures Absent(b, f) ==> r == Err(MissingField(f.name))
    ensures var vs := Values(b, f.Spellings());
            vs != [] && (forall i :: 0 <= i < |vs| ==> vs[i].Nested? && decode(vs[i].body).Ok?) ==> r.Ok?
  {
    var vs := Values(b, f.Spellings());
    if vs == [] then Err(MissingField(f.name)) else DecodeEach(vs, f, decode)
  }

  /** `f` is absent when `o` is None, and given once with the text `o.value` otherwise. */
  predicate GivesOption(b: Body, f: FieldName, o: Option<string>) {
    match o
    case None => Absent(b, f)
    case Some(s) => Gives(b, f, s)
  }

  /** `f` is absent when `o` is None, and given once with a text that `parse` turns into `o.value` otherwise. */
  predicate GivesParsedOption<T(==)>(b: Body, f: FieldName, parse: string -> Option<T>, o: Option<T>) {
    match o
    case None => Absent(b, f)
    case Some(x) => GivesParsed(b, f, parse, x)
  }

  /** `f` is absent when `o` is None, and given once as a child that `decode` turns into `o.value` otherwise. */
  predicate GivesChildOption<T(==)>(b: Body, f: FieldName, decode: Body -> Decoded<T>, o: Option<T>) {
    match o
    case None => Absent(b, f)
    case Some(x) => GivesChild(b, f, decode, x)
  }

  // ---------------------------------------------------------------------------
  // A field given a well-formed value reads as that value, whatever its kind.

  /** A text field given once reads as its text, required or defaulted. */
  lemma GivenText(b: Body, f: FieldName, s: string, default: string)
    requires Gives(b, f, s)
    ensures RequiredText(b, f) == Ok(s)
    ensures TextOr(b, f, default) == Ok(s)
  {
  }

  /** An optional or defaulted text field reads as what is given, or as its default when absent. */
  lemma GivenTextOption(b: Body, f: FieldName, o: Option<string>, default: string)
    requires GivesOption(b, f, o)
    ensures FieldText(b, f) == Ok(o)
    ensures TextOr(b, f, default) == Ok(o.GetOr(default))
  {
  }

  /** A converted field given once with a text `parse` accepts reads as the conversion. */
  lemma GivenParsed<T>(b: Body, f: FieldName, parse: string -> Option<T>, x: T, default: T)
    requires GivesParsed(b, f, parse, x)
    ensures RequiredParsed(b, f, parse) == Ok(x)
    ensures ParsedOr(b, f, parse, default) == Ok(x)
    ensures OptionalParsed(b, f, parse) == Ok(Some(x))
  {
  }

  /** An optional or defaulted converted field reads as what is given, or as its default when absent. */
  lemma GivenParsedOption<T>(b: Body, f: FieldName, parse: string -> Option<T>, o: Option<T>, default: T)
    requires GivesParsedOption(b, f, parse, o)
    ensures OptionalParsed(b, f, parse) == Ok(o)
    ensures ParsedOr(b, f, parse, default) == Ok(o.GetOr(default))
  {
  }

  /** A struct field given once as a decodable child reads as its decoding. */
  lemma GivenChild<T>(b: Body, f: FieldName, decode: Body -> Decoded<T>, x: T)
    requires GivesChild(b, f, decode, x)
    ensures RequiredChild(b, f, decode) == Ok(x)
    ensures OptionalChild(b, f, decode) == Ok(Some(x))
  {
  }

  /** An `Option` struct field reads as what is given, or as None when absent. */
  lemma GivenChildOption<T>(b: Body, f: FieldName, decode: Body -> Decoded<T>, o: Option<T>)
    requires GivesChildOption(b, f, decode, o)
    ensures OptionalChild(b, f, decode) == Ok(o)
  {
  }

  /** A list field given at least once, every value decodable, reads as those decodings in order. */
  lemma GivenList<T>(b: Body, f: FieldName, decode: Body -> Decoded<T>, xs: seq<T>)
    requires xs != [] && GivesList(b, f, decode, xs)
    ensures Children(b, f, decode) == Ok(xs)
  {
    var r := Children(b, f, decode);
    assert r.Ok?;
    assert |r.value| == |xs|;
    assert forall i :: 0 <= i < |xs| ==> r.value[i] == xs[i];
    assert r.value == xs;
  }

  // ---------------------------------------------------------------------------
  // Laws of alias resolution, for any decoder that reads only its own fields.

  /** `b` and `b2` give every field in `fields` the same values. */
  predicate SameFields(b: Body, b2: Body, fields: seq<FieldName>) {
    forall f :: f in fields ==> Values(b, f.Spellings()) == Values(b2, f.Spellings())
  }

  /** `decode` reads nothing of an element but what it gives the fields in `fields`. */
  ghost predicate Local<T(!new)>(decode: Body -> Decoded<T>, fields: seq<FieldName>) {
    forall b, b2 :: SameFields(b, b2, fields) ==> decode(b) == decode(b2)
  }

  /** No field in `fields` tells the names `x` and `y` apart. */
  predicate Interchangeable(x: string, y: string, fields: seq<FieldName>) {
    forall f :: f in fields ==> (x in f.Spellings() <==> y in f.Spellings())
  }

  /** No field in `fields` is spelled `key`. */
  predicate Unknown(key: string, fields: seq<FieldName>) {
    forall f :: f in fields ==> key !in f.Spellings()
  }

  /** Two elements that give a text field the same values decode it alike. */
  lemma SameValuesSameText(b: Body, b2: Body, f: FieldName)
    requires Values(b, f.Spellings()) == Values(b2, f.Spellings())
    ensures FieldText(b, f) == FieldText(b2, f)
    ensures RequiredText(b, f) == RequiredText(b2, f)
    ensures forall d :: TextOr(b, f, d) == TextOr(b2, f, d)
  {
    assert Lookup(b, f) == Lookup(b2, f);
  }

  /** Two elements that give a converted field the same values decode it alike. */
  lemma SameValuesSameParsed<T>(b: Body, b2: Body, f: FieldName, parse: string -> Option<T>)
    requires Values(b, f.Spellings()) == Values(b2, f.Spellings())
    ensures OptionalParsed(b, f, parse) == OptionalParsed(b2, f, parse)
    ensures RequiredParsed(b, f, parse) == RequiredParsed(b2, f, parse)
    ensures forall d :: ParsedOr(b, f, parse, d) == ParsedOr(b2, f, parse, d)
  {
    SameValuesSameText(b, b2, f);
  }

  /** Two elements that give a struct or list field the same values decode it alike. */
  lemma SameValuesSameChild<T>(b: Body, b2: Body, f: FieldName, decode: Body -> Decoded<T>)
    requires Values(b, f.Spellings()) == Values(b2, f.Spellings())
    ensures OptionalChild(b, f, decode) == OptionalChild(b2, f, decode)
    ensures RequiredChild(b, f, decode) == RequiredChild(b2, f, decode)
    ensures Children(b, f, decode) == Children(b2, f, decode)
  {
    assert Lookup(b, f) == Lookup(b2, f);
  }

  /** Writing a field under another of its spellings decodes to the same result. */
  lemma RenameAgrees<T(!new)>(decode: Body -> Decoded<T>, fields: seq<FieldName>, b: Body, from: string, to: string)
    requires Local(decode, fields)
    requires Interchangeable(from, to, fields)
    ensures decode(Rename(b, from, to)) == decode(b)
  {
    forall f | f in fields
      ensures Values(Rename(b, from, to), f.Spellings()) == Values(b, f.Spellings())
    {
      RenameKeepsValues(b, from, to, f.Spellings());
    }
    assert SameFields(Rename(b, from, to), b, fields);
  }

  /** An attribute under a name no field spells is ignored. */
  lemma UnknownAttributeIgnored<T(!new)>(decode: Body -> Decoded<T>, fields: seq<FieldName>, b: Body, key: string, value: string)
    requires Local(decode, fields)
    requires Unknown(key, fields)
    ensures decode(AddAttribute(b, key, value)) == decode(b)
  {
    AddAttributeSameFields(b, key, value, fields);
  }

  /** An attribute that no field in `fields` spells changes none of their values. */
  lemma AddAttributeSameFields(b: Body, key: string, value: string, fields: seq<FieldName>)
    requires Unknown(key, fields)
    ensures SameFields(AddAttribute(b, key, value), b, fields)
  {
    forall f | f in fields
      ensures Values(AddAttribute(b, key, value), f.Spellings()) == Values(b, f.Spellings())
    {
      AddAttributeValues(b, key, value, f.Spellings());
    }
  }

  /** An attribute written under a spelling of an absent field becomes that field's one value. */
  lemma AddAttributeToAbsent(b: Body, f: FieldName, key: string, value: string)
    requires Absent(b, f) && key in f.Spellings()
    ensures Values(AddAttribute(b, key, value), f.Spellings()) == [Text(value)]
    ensures Gives(AddAttribute(b, key, value), f, value)
  {
    AddAttributeValues(b, key, value, f.Spellings());
    assert |AttributeValues(b.attributes, f.Spellings())| + |ChildValues(b.children, f.Spellings())| == 0;
  }

  /** A child element under a name no field spells is ignored, whatever it holds. */
  lemma UnknownChildIgnored<T(!new)>(decode: Body -> Decoded<T>, fields: seq<FieldName>, b: Body, child: Element)
    requires Local(decode, fields)
    requires Unknown(child.name, fields)
    ensures decode(AddChild(b, child)) == decode(b)
  {
    AddChildSameFields(b, child, fields);
  }

  /** A child element that no field in `fields` spells changes none of their values. */
  lemma AddChildSameFields(b: Body, child: Element, fields: seq<FieldName>)
    requires Unknown(child.name, fields)
    ensures SameFields(AddChild(b, child), b, fields)
  {
    forall f | f in fields
      ensures Values(AddChild(b, child), f.Spellings()) == Values(b, f.Spellings())
    {
      AddChildValues(b, child, f.Spellings());
    }
  }

  /** Adding one more decodable child to a list field appends its value and keeps the rest in order. */
  lemma {:induction false} DecodeEachAppend<T>(vs: seq<Value>, v: Value, f: FieldName, decode: Body -> Decoded<T>)
    requires DecodeEach(vs, f, decode).Ok?
    requires v.Nested? && decode(v.body).Ok?
    ensures DecodeEach(vs + [v], f, decode) == Ok(DecodeEach(vs, f, decode).value + [decode(v.body).value])
  {
    if vs == [] {
      assert vs + [v] == [v];
      assert [v][1..] == [];
      assert DecodeEach([v][1..], f, decode) == Ok([]);
      assert [decode(v.body).value] + [] == [decode(v.body).value];
      assert DecodeEach([v], f, decode) == Ok([decode(v.body).value]);
      assert DecodeEach(vs, f, decode).value + [decode(v.body).value] == [decode(v.body).value];
    } else {
      assert (vs + [v])[0] == vs[0] && (vs + [v])[1..] == vs[1..] + [v];
      DecodeEachAppend(vs[1..], v, f, decode);
      var x := decode(vs[0].body).value;
      var xs := DecodeEach(vs[1..], f, decode).value;
      assert DecodeEach(vs, f, decode).value == [x] + xs;
      assert ([x] + xs) + [decode(v.body).value] == [x] + (xs + [decode(v.body).value]);
    }
  }

  /** A further child under a list field's name appends its decoding to the list. */
  lemma ChildrenAppend<T>(b: Body, f: FieldName, decode: Body -> Decoded<T>, child: Element)
    requires child.name in f.Spellings()
    requires Children(b, f, decode).Ok? && decode(child.body).Ok?
    ensures Children(AddChild(b, child), f, decode) == Ok(Children(b, f, decode).value + [decode(child.body).value])
  {
    var vs := Values(b, f.Spellings());
    AddChildValues(b, child, f.Spellings());
    assert Values(AddChild(b, child), f.Spellings()) == vs + [Nested(child.body)];
    assert Children(b, f, decode) == DecodeEach(vs, f, decode);
    DecodeEachAppend(vs, Nested(child.body), f, decode);
  }
}
