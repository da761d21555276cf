/**
 * The query string of a request URI. This model assumes it is built as PHP's
 * `http_build_query` builds one from a flat array of string and integer
 * parameters, which is what the expected URI in the tests shows; other
 * value types are not modelled. A parser inverts it.
 */
module Query {
  import opened Wrappers
  import Text
  import UrlEncoding

  /** A query-parameter value: a PHP string or a PHP integer. */
  datatype Value = Str(s: string) | Int(i: int)

  /** The parameters as the caller's PHP array holds them, in insertion order. */
  type Parameters = seq<(string, Value)>

  /** PHP's conversion of a scalar to a string: a string as it is, an integer in decimal. */
  function ValueText(v: Value): string
  {
    match v
    case Str(s) => s
    case Int(i) => Text.IntToDecimal(i)
  }

  /** The parameters with every value converted to its text. */
  function Texts(ps: Parameters): (ts: seq<(string, string)>)
    ensures |ts| == |ps|
    ensures forall i :: 0 <= i < |ps| ==> ts[i] == (ps[i].0, ValueText(ps[i].1))
    decreases |ps|
  {
    if ps == [] then [] else [(ps[0].0, ValueText(ps[0].1))] + Texts(ps[1..])
  }

  /** `name=value`, both encoded. */
  function EncodePair(p: (string, Value)): (r: string)
    ensures '&' !in r
  {
    UrlEncoding.Encode(p.0) + "=" + UrlEncoding.Encode(ValueText(p.1))
  }

  /** The query string: the encoded pairs in the given order, joined by `&`. */
  function Build(ps: Parameters): (r: string)
    ensures ps == [] <==> r == ""
    decreases |ps|
  {
    if ps == [] then ""
    else if |ps| == 1 then EncodePair(ps[0])
    else EncodePair(ps[0]) + "&" + Build(ps[1..])
  }

  /** Splits a string at every occurrence of `sep`; there is always at least one part. */
  function Split(s: string, sep: char): (parts: seq<string>)
    ensures |parts| >= 1
    decreases |s|
  {
    if s == [] then [""]
    else
      var rest := Split(s[1..], sep);
      if s[0] == sep then [""] + rest else [[s[0]] + rest[0]] + rest[1..]
  }

  lemma {:induction false} SplitWithoutSeparator(p: string, sep: char)
    requires sep !in p
    ensures Split(p, sep) == [p]
    decreases |p|
  {
    if p != [] {
      SplitWithoutSeparator(p[1..], sep);
      assert [p[0]] + p[1..] == p;
    }
  }

  lemma {:induction false} SplitAtFirst(p: string, sep: char, rest: string)
    requires sep !in p
    ensures Split(p + [sep] + rest, sep) == [p] + Split(rest, sep)
    decreases |p|
  {
    var s := p + [sep] + rest;
    if p == [] {
      assert s[0] == sep && s[1..] == rest;
    } else {
      assert s[1..] == p[1..] + [sep] + rest;
      SplitAtFirst(p[1..], sep, rest);
      assert [p[0]] + p[1..] == p;
    }
  }

  /** Decodes `name=value`; None unless the part has exactly one `=` and both sides decode. */
  function ParsePair(part: string): Option<(string, string)>
  {
    var kv := Split(part, '=');
    if |kv| != 2 then None
    else
      match (UrlEncoding.Decode(kv[0]), UrlEncoding.Decode(kv[1]))
      case (Some(name), Some(value)) => Some((name, value))
      case _ => None
  }

  function ParsePairs(parts: seq<string>): Option<seq<(string, string)>>
    decreases |parts|
  {
    if parts == [] then Some([])
    else
      match (ParsePair(parts[0]), ParsePairs(parts[1..]))
      case (Some(p), Some(ps)) => Some([p] + ps)
      case _ => None
  }

  /** Reads a query string back into its names and values, in order. */
  function Parse(q: string): Option<seq<(string, string)>>
  {
    if q == "" then Some([]) else ParsePairs(Split(q, '&'))
  }

  lemma ParseEncodedPair(p: (string, Value))
    ensures ParsePair(EncodePair(p)) == Some((p.0, ValueText(p.1)))
  {
    var name, value := UrlEncoding.Encode(p.0), UrlEncoding.Encode(ValueText(p.1));
    SplitWithoutSeparator(value, '=');
    SplitAtFirst(name, '=', value);
    assert EncodePair(p) == name + ['='] + value;
    UrlEncoding.DecodeEncode(p.0);
    UrlEncoding.DecodeEncode(ValueText(p.1));
  }

  /** The encoded pairs, in the given order. */
  function EncodedParts(ps: Parameters): (parts: seq<string>)
    ensures |parts| == |ps|
    decreases |ps|
  {
    if ps == [] then [] else [EncodePair(ps[0])] + EncodedParts(ps[1..])
  }

  /** The `&`-separated parts of the query string are the encoded pairs, in the given order. */
  lemma {:induction false} SplitBuild(ps: Parameters)
    requires ps != []
    ensures Split(Build(ps), '&') == EncodedParts(ps)
    decreases |ps|
  {
    if |ps| == 1 {
      SplitWithoutSeparator(EncodePair(ps[0]), '&');
    } else {
      SplitAtFirst(EncodePair(ps[0]), '&', Build(ps[1..]));
      SplitBuild(ps[1..]);
    }
  }

  lemma {:induction false} ParseEncodedPairs(ps: Parameters)
    ensures ParsePairs(EncodedParts(ps)) == Some(Texts(ps))
    decreases |ps|
  {
    if ps != [] {
      var parts := EncodedParts(ps);
      assert parts[0] == EncodePair(ps[0]) && parts[1..] == EncodedParts(ps[1..]);
      ParseEncodedPair(ps[0]);
      ParseEncodedPairs(ps[1..]);
    }
  }

  /**
   * Parsing a built query string recovers every name and value, in
   * insertion order: the encoding loses nothing and the `&` and `=`
   * separators cannot be confused with encoded text.
   */
  lemma ParseBuild(ps: Parameters)
    ensures Parse(Build(ps)) == Some(Texts(ps))
  {
    if ps != [] {
      SplitBuild(ps);
      ParseEncodedPairs(ps);
    }
  }
}
