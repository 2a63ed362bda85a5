/**
  The library entry point of mtgoxml/src/lib.rs: `MtgoApplication::from_contents`
  drops every leading U+FEFF from the text, reads the XML that remains and
  decodes the deployment manifest from its root element. The XML reader is
  a parameter: it turns text into an element tree or reports why it cannot.
*/
module Mtgo {
  import opened Wrappers
  import opened Xml
  import opened Fields
  import opened ClickOnce

  /** U+FEFF, the byte-order mark. */
  const Bom: char := '\U{FEFF}'

  /** `k` byte-order marks in a row. */
  function Boms(k: nat): string {
    seq(k, _ => Bom)
  }

  /** `trim_start_matches('\u{feff}')`: `s` less all of its leading byte-order marks. */
  function TrimStartBom(s: string): (r: string)
    ensures |r| <= |s| && r == s[|s| - |r|..]
    ensures forall i :: 0 <= i < |s| - |r| ==> s[i] == Bom
    ensures r == [] || r[0] != Bom
  {
    if s != [] && s[0] == Bom then TrimStartBom(s[1..]) else s
  }

  /** The errors of the library; `Generic` is never produced and is not modelled. */
  datatype Error = HTTP | XML(cause: DecodeError)

  datatype MtgoApplication = MtgoApplication(deploymentManifest: DeploymentManifest)

  /**
    `from_contents`: every failure, of the reader or of the decoder, is an XML
    error, and success holds exactly the manifest decoded from the trimmed text.
  */
  function FromContents(contents: string, parse: string -> Decoded<Element>): (r: Result<MtgoApplication, Error>)
    ensures r.Err? ==> r.error.XML?
    ensures r.Err? && parse(TrimStartBom(contents)).Err? ==> r.error.cause == parse(TrimStartBom(contents)).error
    ensures parse(TrimStartBom(contents)).Ok? && DecodeDeploymentManifest(parse(TrimStartBom(contents)).value.body).Err? ==>
              r == Err(XML(DecodeDeploymentManifest(parse(TrimStartBom(contents)).value.body).error))
    ensures r.Ok? <==> parse(TrimStartBom(contents)).Ok?
                       && DecodeDeploymentManifest(parse(TrimStartBom(contents)).value.body).Ok?
    ensures r.Ok? ==>
              r.value.deploymentManifest == DecodeDeploymentManifest(parse(TrimStartBom(contents)).value.body).value
  {
    match parse(TrimStartBom(contents))
    case Err(e) => Err(XML(e))
    case Ok(root) =>
      match DecodeDeploymentManifest(root.body)
      case Err(e) => Err(XML(e))
      case Ok(manifest) => Ok(MtgoApplication(manifest))
  }

  /** Marks in front of text that does not start with one are all removed, and nothing else is. */
  lemma TrimStartBomExact(k: nat, s: string)
    requires s == [] || s[0] != Bom
    ensures TrimStartBom(Boms(k) + s) == s
  {
    TrimStartBomLeading(k, s);
  }

  /** Trimming twice trims no more than trimming once. */
  lemma TrimStartBomIdempotent(s: string)
    ensures TrimStartBom(TrimStartBom(s)) == TrimStartBom(s)
  {
  }

  /** Text that does not start with a mark is left as it is, marks further in included. */
  lemma TrimStartBomKeepsInterior(s: string, t: string)
    requires s != [] && s[0] != Bom
    ensures TrimStartBom(s + [Bom] + t) == s + [Bom] + t
  {
  }

  /** However many marks come before it, the same text trims to the same result. */
  lemma {:induction false} TrimStartBomLeading(k: nat, s: string)
    ensures TrimStartBom(Boms(k) + s) == TrimStartBom(s)
  {
    if k > 0 {
      assert (Boms(k) + s)[0] == Bom;
      assert (Boms(k) + s)[1..] == Boms(k - 1) + s;
      TrimStartBomLeading(k - 1, s);
    } else {
      assert Boms(k) + s == s;
    }
  }

  /** Leading marks do not change what `from_contents` returns. */
  lemma FromContentsIgnoresBoms(k: nat, contents: string, parse: string -> Decoded<Element>)
    ensures FromContents(Boms(k) + contents, parse) == FromContents(contents, parse)
  {
    TrimStartBomLeading(k, contents);
  }

  /** The reader is only ever given text that does not start with a mark. */
  lemma ReaderSeesNoBom(contents: string, parse: string -> Decoded<Element>, parse2: string -> Decoded<Element>)
    requires forall t :: (t == [] || t[0] != Bom) ==> parse(t) == parse2(t)
    ensures FromContents(contents, parse) == FromContents(contents, parse2)
  {
  }

  /** `from_contents` never reports an HTTP error. */
  lemma FromContentsNeverHttp(contents: string, parse: string -> Decoded<Element>)
    ensures FromContents(contents, parse) != Err(HTTP)
  {
  }
}
