/** The `subreddit` configuration value: a list of subreddit names is joined
    with '+', the form the stream endpoint takes for several subreddits; a
    single name is used as it is; any other type is refused. */
module Config {

  /** A YAML value as the loader returns it, reduced to the shapes the monitor
      tells apart: a string, a list, or anything else (named by its type). */
  datatype ConfigValue = Str(s: string) | List(items: seq<ConfigValue>) | Other(typeName: string)

  datatype ConfigError =
    | InvalidType(typeName: string)   // neither list nor string: the monitor exits
    | JoinTypeError(index: nat)       // `'+'.join` meets a list item that is not a string

  datatype Normalized = Ok(value: string) | Err(error: ConfigError)

  const Separator: char := '+'

  /** `sep.join(parts)`: it starts with the first part, and every character it
      holds is the separator or comes from one of the parts. */
  function Join(parts: seq<string>, sep: char): (r: string)
    ensures |parts| > 0 ==> parts[0] <= r
    ensures forall i :: 0 <= i < |r| ==> r[i] == sep || exists p :: p in parts && r[i] in p
  {
    if |parts| == 0 then []
    else
      assert parts[0] in parts;
      if |parts| == 1 then parts[0]
      else
        assert forall p :: p in parts[1..] ==> p in parts;
        parts[0] + [sep] + Join(parts[1..], sep)
  }

  /** `s.split(sep)`: the pieces between separators, at least one. */
  function Split(s: string, sep: char): (r: seq<string>)
    ensures |r| >= 1
  {
    if s == [] then [[]]
    else
      var rest := Split(s[1..], sep);
      if s[0] == sep then [[]] + rest
      else [[s[0]] + rest[0]] + rest[1..]
  }

  lemma {:induction false} SplitWord(w: string, sep: char)
    requires sep !in w
    ensures Split(w, sep) == [w]
  {
    if w != [] {
      SplitWord(w[1..], sep);
      assert [w[0]] + w[1..] == w;
    }
  }

  lemma {:induction false} SplitAfterWord(w: string, sep: char, t: string)
    requires sep !in w
    ensures Split(w + [sep] + t, sep) == [w] + Split(t, sep)
  {
    if w == [] {
      assert ([] + [sep] + t)[1..] == t;
    } else {
      var s := w + [sep] + t;
      assert s[1..] == w[1..] + [sep] + t;
      SplitAfterWord(w[1..], sep, t);
      assert [w[0]] + w[1..] == w;
    }
  }

  /** Joining names that do not contain the separator loses nothing: splitting
      the joined string gives the names back. */
  lemma {:induction false} SplitJoin(parts: seq<string>, sep: char)
    requires |parts| > 0
    requires forall p :: p in parts ==> sep !in p
    ensures Split(Join(parts, sep), sep) == parts
    decreases |parts|
  {
    if |parts| == 1 {
      SplitWord(parts[0], sep);
    } else {
      SplitJoin(parts[1..], sep);
      SplitAfterWord(parts[0], sep, Join(parts[1..], sep));
      assert [parts[0]] + parts[1..] == parts;
    }
  }

  /** The index of the first item that is not a string, if any. */
  function FirstNonString(items: seq<ConfigValue>): (k: nat)
    ensures k <= |items|
    ensures forall j :: 0 <= j < k ==> items[j].Str?
    ensures k < |items| ==> !items[k].Str?
  {
    if items == [] || !items[0].Str? then 0 else 1 + FirstNonString(items[1..])
  }

  /** The string items of a list. */
  function Strings(items: seq<ConfigValue>): (r: seq<string>)
    requires forall j :: 0 <= j < |items| ==> items[j].Str?
    ensures |r| == |items|
    ensures forall j :: 0 <= j < |items| ==> r[j] == items[j].s
  {
    if items == [] then [] else [items[0].s] + Strings(items[1..])
  }

  /** The `SUBREDDITS` value the monitor derives from its configuration. */
  function NormalizeSubreddits(v: ConfigValue): (r: Normalized)
    ensures r.Ok? <==> v.Str? || (v.List? && forall j :: 0 <= j < |v.items| ==> v.items[j].Str?)
  {
    match v
    case List(items) =>
      var k := FirstNonString(items);
      if k < |items| then Err(JoinTypeError(k)) else Ok(Join(Strings(items), Separator))
    case Str(s) => Ok(s)
    case Other(t) => Err(InvalidType(t))
  }

  /** A string is used unchanged, and any type other than list or string is refused. */
  lemma NormalizeScalar(v: ConfigValue)
    requires !v.List?
    ensures v.Str? ==> NormalizeSubreddits(v) == Ok(v.s)
    ensures v.Other? ==> NormalizeSubreddits(v).Err? && NormalizeSubreddits(v).error == InvalidType(v.typeName)
  {
  }

  /** An empty list joins to the empty string. */
  lemma NormalizeEmptyList()
    ensures NormalizeSubreddits(List([])) == Ok("")
  {
  }

  /** A non-empty list of names without '+' becomes one string from which the
      names can be recovered in order; a one-name list yields that name. */
  lemma NormalizeList(names: seq<string>)
    requires |names| > 0
    requires forall p :: p in names ==> Separator !in p
    ensures var items := seq(|names|, j requires 0 <= j < |names| => Str(names[j]));
      var r := NormalizeSubreddits(List(items));
      r.Ok? && Split(r.value, Separator) == names &&
      (|names| == 1 ==> r.value == names[0])
  {
    var items := seq(|names|, j requires 0 <= j < |names| => Str(names[j]));
    assert Strings(items) == names;
    SplitJoin(names, Separator);
  }

  /** A list with an item that is not a string is refused at that item. */
  lemma NormalizeBadList(items: seq<ConfigValue>, k: nat)
    requires k < |items| && !items[k].Str?
    requires forall j :: 0 <= j < k ==> items[j].Str?
    ensures NormalizeSubreddits(List(items)) == Err(JoinTypeError(k))
  {
  }
}
