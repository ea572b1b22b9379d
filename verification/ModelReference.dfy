/** Model references: `provider/model`, `provider:connection/model`, `provider`, `provider:connection`. */
module ModelReference {
  import opened Options

  datatype Reference = Reference(provider: string, connection: Option<string>, modelId: Option<string>)

  datatype ParseResult = Parsed(reference: Reference) | ValueError

  /** The part before the first `c`, and the part after it if there is a `c` at all: `s.split(c, 1)`. */
  function Split(s: string, c: char): (string, Option<string>) {
    if s == "" then ("", None)
    else if s[0] == c then ("", Some(s[1..]))
    else
      var rest := Split(s[1..], c);
      ([s[0]] + rest.0, rest.1)
  }

  function Parse(model: string): ParseResult {
    var (left, modelId) := Split(model, '/');
    if model == "" || left == "" || modelId == Some("") then ValueError
    else if ':' in left then
      var (provider, connection) := Split(left, ':');
      if provider == "" || connection == None || connection == Some("") then ValueError
      else Parsed(Reference(provider, connection, modelId))
    else Parsed(Reference(left, None, modelId))
  }

  function Print(r: Reference): string {
    r.provider
    + (if r.connection.Some? then ":" + r.connection.value else "")
    + (if r.modelId.Some? then "/" + r.modelId.value else "")
  }

  /** The references the textual form can carry. A model id may contain anything. */
  predicate Printable(r: Reference) {
    && r.provider != "" && ':' !in r.provider && '/' !in r.provider
    && (r.connection.Some? ==> r.connection.value != "" && '/' !in r.connection.value)
    && (r.modelId.Some? ==> r.modelId.value != "")
  }

  lemma {:induction false} SplitSpec(s: string, c: char)
    ensures var (left, right) := Split(s, c);
            && c !in left
            && s == left + (if right.Some? then [c] + right.value else "")
            && (right.Some? <==> c in s)
  {
    if s != "" && s[0] != c {
      SplitSpec(s[1..], c);
      assert s == [s[0]] + s[1..];
    } else if s != "" {
      assert s == [s[0]] + s[1..];
    }
  }

  lemma {:induction false} SplitFirst(s: string, left: string, right: string, c: char)
    requires c !in left && s == left + [c] + right
    ensures Split(s, c) == (left, Some(right))
  {
    if left == "" {
      assert s[1..] == right;
    } else {
      assert s[0] == left[0] && left[0] in left;
      assert s[1..] == left[1..] + [c] + right;
      SplitFirst(s[1..], left[1..], right, c);
      assert [left[0]] + left[1..] == left;
    }
  }

  lemma {:induction false} SplitAbsent(s: string, c: char)
    requires c !in s
    ensures Split(s, c) == (s, None)
  {
    if s != "" {
      assert s[0] in s;
      SplitAbsent(s[1..], c);
      assert [s[0]] + s[1..] == s;
    }
  }

  /** Whatever parses is printable, and prints back to the very string it came from. */
  lemma PrintAfterParse(s: string)
    requires Parse(s).Parsed?
    ensures Printable(Parse(s).reference)
    ensures Print(Parse(s).reference) == s
  {
    SplitSpec(s, '/');
    var left := Split(s, '/').0;
    SplitSpec(left, ':');
    var provider := Split(left, ':').0;
    if ':' in left {
      forall x | x in provider
        ensures x in left
      {
      }
      var connection := Split(left, ':').1.value;
      assert left == provider + ([':'] + connection);
      forall x | x in connection
        ensures x in left
      {
      }
    }
  }

  /** The part of the printed form before the model id. */
  function Left(r: Reference): string {
    r.provider + (if r.connection.Some? then ":" + r.connection.value else "")
  }

  lemma LeftSplits(r: Reference)
    requires Printable(r)
    ensures Left(r) != "" && '/' !in Left(r)
    ensures ':' in Left(r) <==> r.connection.Some?
    ensures r.connection.Some? ==> Split(Left(r), ':') == (r.provider, r.connection)
  {
    if r.connection.Some? {
      assert Left(r) == r.provider + [':'] + r.connection.value;
      SplitFirst(Left(r), r.provider, r.connection.value, ':');
      assert Left(r)[|r.provider|] == ':';
    }
  }

  lemma ModelIdSplits(r: Reference)
    requires Printable(r)
    ensures Split(Print(r), '/') == (Left(r), r.modelId)
  {
    LeftSplits(r);
    if r.modelId.Some? {
      assert Print(r) == Left(r) + ['/'] + r.modelId.value;
      SplitFirst(Print(r), Left(r), r.modelId.value, '/');
    } else {
      assert Print(r) == Left(r);
      SplitAbsent(Left(r), '/');
    }
  }

  lemma PrintableParses(r: Reference)
    requires Printable(r)
    ensures Parse(Print(r)) == Parsed(r)
  {
    LeftSplits(r);
    ModelIdSplits(r);
    assert Print(r) != "" by {
      assert r.provider != "" && |Print(r)| >= |r.provider|;
    }
    if r.connection.None? {
      assert Left(r) == r.provider;
    }
  }

  /** The round trip holds for exactly the printable references. */
  lemma ParseAfterPrint(r: Reference)
    ensures Parse(Print(r)) == Parsed(r)
            <==> && r.provider != "" && ':' !in r.provider && '/' !in r.provider
                 && r.connection != Some("") && (r.connection.Some? ==> '/' !in r.connection.value)
                 && r.modelId != Some("")
  {
    if Printable(r) {
      PrintableParses(r);
    } else if Parse(Print(r)) == Parsed(r) {
      PrintAfterParse(Print(r));
      assert false;
    }
  }

  /** Printing is injective on printable references. */
  lemma PrintInjective(a: Reference, b: Reference)
    requires Printable(a) && Printable(b) && Print(a) == Print(b)
    ensures a == b
  {
    ParseAfterPrint(a);
    ParseAfterPrint(b);
  }

  /** What the agent command prints for a chosen connection: the name is always given a model id, or a
      default model, to go with it; otherwise the bare provider is printed. */
  function ConnectionReference(provider: string, name: string, chosen: string, defaultModel: string): Reference {
    if chosen != "" then Reference(provider, Some(name), Some(chosen))
    else if defaultModel != "" then Reference(provider, Some(name), None)
    else Reference(provider, None, None)
  }

  /** A connection keeping the suggested name `provider/model` cannot be referred to by the printed form:
      it parses as a connection named after the provider alone. */
  lemma SuggestedNameDoesNotRoundTrip(provider: string, modelId: string, chosen: string)
    requires provider != "" && ':' !in provider && '/' !in provider && chosen != ""
    ensures var r := ConnectionReference(provider, provider + "/" + modelId, chosen, modelId);
            && Parse(Print(r)) == Parsed(Reference(provider, Some(provider), Some(modelId + "/" + chosen)))
            && Parse(Print(r)) != Parsed(r)
  {
    var r := ConnectionReference(provider, provider + "/" + modelId, chosen, modelId);
    var seen := Reference(provider, Some(provider), Some(modelId + "/" + chosen));
    assert Print(r) == Print(seen);
    PrintableParses(seen);
    assert r.connection.value[|provider|] == '/';
    ParseAfterPrint(r);
  }
}
