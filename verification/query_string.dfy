/**
  The query string of a URL as `name=value` fields separated by `&`, with
  each value percent-encoded. Building one and reading it back are stated
  against each other.
 */
module QueryString {
  import opened Optional
  import opened Text
  import opened PercentEncoding

  /** The fields written one after another with `sep` between them. */
  function Join(fields: seq<string>, sep: char): string
    decreases |fields|
  {
    if |fields| == 0 then ""
    else if |fields| == 1 then fields[0]
    else fields[0] + [sep] + Join(fields[1..], sep)
  }

  /** The text cut at every `sep`; the pieces hold no `sep` and there is at least one. */
  function Split(s: string, sep: char): (fields: seq<string>)
    ensures |fields| >= 1
    ensures forall i :: 0 <= i < |fields| ==> sep !in fields[i]
  {
    if s == [] then [""]
    else
      var rest := Split(s[1..], sep);
      if s[0] == sep then [""] + rest else [[s[0]] + rest[0]] + rest[1..]
  }

  /** Text without the separator is one field. */
  lemma {:induction false} SplitFree(a: string, sep: char)
    requires sep !in a
    ensures Split(a, sep) == [a]
  {
    if a != [] {
      SplitFree(a[1..], sep);
      assert [a[0]] + a[1..] == a;
    }
  }

  /** Cutting at the first separator. */
  lemma {:induction false} SplitAt(a: string, b: string, sep: char)
    requires sep !in a
    ensures Split(a + [sep] + b, sep) == [a] + Split(b, sep)
  {
    var s := a + [sep] + b;
    if a == [] {
      assert s[1..] == b;
    } else {
      assert s[1..] == a[1..] + [sep] + b;
      SplitAt(a[1..], b, sep);
      assert [a[0]] + a[1..] == a;
    }
  }

  /** Splitting undoes joining, as long as no field holds the separator. */
  lemma {:induction false} SplitJoin(fields: seq<string>, sep: char)
    requires |fields| >= 1
    requires forall i :: 0 <= i < |fields| ==> sep !in fields[i]
    ensures Split(Join(fields, sep), sep) == fields
  {
    if |fields| == 1 {
      SplitFree(fields[0], sep);
    } else {
      SplitJoin(fields[1..], sep);
      SplitAt(fields[0], Join(fields[1..], sep), sep);
      assert [fields[0]] + fields[1..] == fields;
    }
  }

  /** One `name=value` field with the value escaped. */
  function Field(name: string, value: string): string {
    name + "=" + EscapeDataString(value)
  }

  /** A field read back: its name and decoded value, or `None` when it is not `name=value`. */
  function Parameter(field: string): (p: Option<(string, string)>)
  {
    var parts := Split(field, '=');
    if |parts| != 2 then None
    else match UnescapeDataString(parts[1])
      case None => None
      case Some(v) => Some((parts[0], v))
  }

  /** Every field of a query read back, or `None` when one is malformed. */
  function Parameters(fields: seq<string>): (ps: Option<seq<(string, string)>>)
    ensures ps.Some? ==> |ps.value| == |fields|
  {
    if fields == [] then Some([])
    else match (Parameter(fields[0]), Parameters(fields[1..]))
      case (Some(p), Some(ps)) => Some([p] + ps)
      case _ => None
  }

  /** The parameters of a query string. */
  function ParseQuery(query: string): Option<seq<(string, string)>> {
    Parameters(Split(query, '&'))
  }

  /** Escaped text holds no reserved character other than `%`, so no query delimiter. */
  lemma EscapedLacks(value: string, c: char)
    requires !IsUnreserved(c) && c != '%'
    ensures c !in EscapeDataString(value)
  {
    var e := EscapeDataString(value);
    forall i | 0 <= i < |e| ensures e[i] != c {
      assert IsUnreserved(e[i]) || e[i] == '%';
    }
  }

  /** Joining fields that lack `c` with a separator other than `c` gives text that lacks `c`. */
  lemma {:induction false} JoinLacks(fields: seq<string>, sep: char, c: char)
    requires c != sep
    requires forall i :: 0 <= i < |fields| ==> c !in fields[i]
    ensures c !in Join(fields, sep)
    decreases |fields|
  {
    if |fields| > 1 {
      JoinLacks(fields[1..], sep, c);
    }
  }

  /** A field read back prepended to fields read back. */
  lemma ParametersCons(field: string, fields: seq<string>)
    requires Parameter(field).Some? && Parameters(fields).Some?
    ensures Parameters([field] + fields) == Some([Parameter(field).value] + Parameters(fields).value)
  {
    assert ([field] + fields)[1..] == fields;
  }

  /** A parameter name the query syntax can carry as is: no `=`, `&` or `?`. */
  predicate PlainName(name: string) {
    '=' !in name && '&' !in name && '?' !in name
  }

  /** One field per parameter, in order. */
  function Fields(ps: seq<(string, string)>): (fs: seq<string>)
    ensures |fs| == |ps|
    ensures forall i :: 0 <= i < |ps| ==> fs[i] == Field(ps[i].0, ps[i].1)
  {
    seq(|ps|, i requires 0 <= i < |ps| => Field(ps[i].0, ps[i].1))
  }

  /** The query string carrying `ps`. */
  function Query(ps: seq<(string, string)>): string {
    Join(Fields(ps), '&')
  }

  /** Fields written with plain names read back as the parameters they were written from. */
  lemma {:induction false} ParametersOfFields(ps: seq<(string, string)>)
    requires forall i :: 0 <= i < |ps| ==> PlainName(ps[i].0)
    ensures Parameters(Fields(ps)) == Some(ps)
    decreases |ps|
  {
    if ps != [] {
      var tail := ps[1..];
      var f := Field(ps[0].0, ps[0].1);
      var fs := Fields(tail);
      assert forall i :: 0 <= i < |tail| ==> tail[i] == ps[i + 1];
      ParametersOfFields(tail);
      FieldRoundTrip(ps[0].0, ps[0].1);
      assert Fields(ps) == [f] + fs;
      ParametersCons(f, fs);
      assert [ps[0]] + tail == ps;
    } else {
      assert Fields(ps) == [];
    }
  }

  /**
    The query's round trip: reading back a query written from one or more
    parameters with plain names gives those parameters, values decoded; the
    query holds no `?`.
   */
  lemma QueryRoundTrip(ps: seq<(string, string)>)
    requires |ps| >= 1
    requires forall i :: 0 <= i < |ps| ==> PlainName(ps[i].0)
    ensures ParseQuery(Query(ps)) == Some(ps)
    ensures '?' !in Query(ps)
  {
    var fs := Fields(ps);
    forall i | 0 <= i < |fs| ensures '&' !in fs[i] && '?' !in fs[i] {
      FieldRoundTrip(ps[i].0, ps[i].1);
    }
    SplitJoin(fs, '&');
    JoinLacks(fs, '&', '?');
    ParametersOfFields(ps);
  }

  /** The parameters of a URL: those of the text after its last `?`. */
  function UrlParameters(url: string): Option<seq<(string, string)>> {
    ParseQuery(AfterLast(url, '?'))
  }

  /** A field written with a delimiter-free name reads back as that name and value. */
  lemma FieldRoundTrip(name: string, value: string)
    requires '=' !in name && '&' !in name
    ensures Parameter(Field(name, value)) == Some((name, value))
    ensures '&' !in Field(name, value)
    ensures '?' !in name ==> '?' !in Field(name, value)
  {
    var e := EscapeDataString(value);
    EscapedLacks(value, '=');
    EscapedLacks(value, '&');
    assert Field(name, value) == name + ['='] + e;
    SplitAt(name, e, '=');
    SplitFree(e, '=');
    UnescapeEscape(value);
    EscapedLacks(value, '?');
  }
}
