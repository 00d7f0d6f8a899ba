/**
 * What reading a block format does to lists of references, said of the names alone: a list of
 * names is completed by the labels of the blocks nested beside it.
 */
module Completion {
  import opened Toml
  import opened Hcl
  import opened Assembly

  /** The strings of a list of values, in order. */
  function Texts(items: seq<Value>): seq<Value> {
    if items == [] then []
    else
      var last := items[|items| - 1];
      Texts(items[..|items| - 1]) + if last.Str? then [last] else []
  }

  /** The strings a list field holds; any other field counts as an empty list. */
  function Listed(fields: Fields, attr: string): seq<Value> {
    if attr in fields && fields[attr].Arr? then Texts(fields[attr].items) else []
  }

  function AsTexts(names: seq<string>): seq<Value> {
    seq(|names|, i requires 0 <= i < |names| => Str(names[i]))
  }

  /** The labels that are not listed yet, each once, in the order in which they first appear. */
  ghost predicate Missing(listed: seq<Value>, labels: seq<string>, added: seq<string>) {
    && Distinct(added)
    && (forall n :: n in added <==> n in labels && Str(n) !in listed)
    && (forall i, j, q :: 0 <= i < j < |added| && 0 <= q < |labels| && labels[q] == added[j] ==>
          added[i] in labels[..q])
  }

  /** One field is completed by the labels, all others stay. */
  ghost predicate Completes(was: Fields, now: Fields, attr: string, labels: seq<string>) {
    && (forall a :: a != attr ==> Field(now, a) == Field(was, a))
    && if labels == [] then Field(now, attr) == Field(was, attr)
       else exists added ::
              Missing(Listed(was, attr), labels, added) &&
              Field(now, attr) == Some(Arr(Listed(was, attr) + AsTexts(added)))
  }

  lemma {:induction false} TextsAreStrings(items: seq<Value>)
    ensures Texts(items) == AsTexts(Strings(items))
    decreases |items|
  {
    if items != [] {
      TextsAreStrings(items[..|items| - 1]);
      StringsAppend(items[..|items| - 1], items[|items| - 1..]);
      assert items[..|items| - 1] + items[|items| - 1..] == items;
      assert items[|items| - 1..][1..] == [];
    }
  }

  lemma {:induction false} StringsAppend(a: seq<Value>, b: seq<Value>)
    ensures Strings(a + b) == Strings(a) + Strings(b)
  {
    if a == [] {
      assert a + b == b;
    } else {
      assert (a + b)[1..] == a[1..] + b;
      StringsAppend(a[1..], b);
    }
  }

  lemma ListedIs(fields: Fields, attr: string)
    ensures Listed(fields, attr) == AsTexts(NameList(fields, attr))
  {
    if attr in fields && fields[attr].Arr? { TextsAreStrings(fields[attr].items); }
  }

  lemma InTexts(names: seq<string>, n: string)
    ensures Str(n) in AsTexts(names) <==> n in names
  {
    if n in names {
      var i :| 0 <= i < |names| && names[i] == n;
      assert AsTexts(names)[i] == Str(n);
    }
    if Str(n) in AsTexts(names) {
      var i :| 0 <= i < |names| && AsTexts(names)[i] == Str(n);
      assert names[i] == n;
    }
  }

  /** What is appended. */
  ghost predicate Appends(all: seq<string>, labels: seq<string>, added: seq<string>) {
    && Distinct(added)
    && (forall n :: n in added <==> n in labels && n !in all)
    && (forall i, j, q :: 0 <= i < j < |added| && 0 <= q < |labels| && labels[q] == added[j] ==>
          added[i] in labels[..q])
  }

  lemma AppendsFirst(all: seq<string>, labels: seq<string>, rest: seq<string>)
    requires labels != [] && labels[0] !in all && Appends(all + [labels[0]], labels[1..], rest)
    ensures Appends(all, labels, [labels[0]] + rest)
  {
    var n, added := labels[0], [labels[0]] + rest;
    assert labels == [n] + labels[1..];
    forall x ensures x in added <==> x in labels && x !in all {
      assert x in all + [n] <==> x in all || x == n;
    }
    assert n !in rest;
    forall i, j, q | 0 <= i < j < |added| && 0 <= q < |labels| && labels[q] == added[j]
      ensures added[i] in labels[..q]
    {
      assert added[j] == rest[j - 1] && rest[j - 1] in rest;
      assert q > 0;
      assert labels[..q] == [n] + labels[1..][..q - 1];
      if i > 0 { assert labels[1..][q - 1] == rest[j - 1] && added[i] == rest[i - 1]; }
    }
  }

  lemma AppendsKnown(all: seq<string>, labels: seq<string>, added: seq<string>)
    requires labels != [] && labels[0] in all && Appends(all, labels[1..], added)
    ensures Appends(all, labels, added)
  {
    var n := labels[0];
    assert labels == [n] + labels[1..];
    forall i, j, q | 0 <= i < j < |added| && 0 <= q < |labels| && labels[q] == added[j]
      ensures added[i] in labels[..q]
    {
      assert added[j] in added;
      assert q > 0;
      assert labels[..q] == [n] + labels[1..][..q - 1];
      assert labels[1..][q - 1] == added[j];
    }
  }

  lemma {:induction false} AppendNewAppends(all: seq<string>, labels: seq<string>) returns (added: seq<string>)
    ensures AppendNew(all, labels) == all + added && Appends(all, labels, added)
    decreases |labels|
  {
    if labels == [] {
      added := [];
    } else if labels[0] in all {
      added := AppendNewAppends(all, labels[1..]);
      AppendsKnown(all, labels, added);
    } else {
      var rest := AppendNewAppends(all + [labels[0]], labels[1..]);
      added := [labels[0]] + rest;
      assert all + [labels[0]] + rest == all + added;
      AppendsFirst(all, labels, rest);
    }
  }

  /** Completing a list is appending the labels it lacks. */
  lemma ListCompletes(was: Fields, attr: string, labels: seq<string>)
    ensures Completes(was, WithList(was, attr, labels), attr, labels)
  {
    if labels != [] {
      var listed := NameList(was, attr);
      var added := AppendNewAppends(listed, labels);
      ListedIs(was, attr);
      forall n ensures n in added <==> n in labels && Str(n) !in Listed(was, attr) { InTexts(listed, n); }
      assert Missing(Listed(was, attr), labels, added);
      assert StringArray(listed + added) == Arr(AsTexts(listed) + AsTexts(added));
    }
  }

  /** A reference that is not given is the first label; everything else stays. */
  ghost predicate UpstreamGiven(was: Fields, now: Fields, labels: seq<string>) {
    forall a :: Field(now, a) ==
      if a == "upstream" && "upstream" !in was && labels != [] then Some(Str(labels[0])) else Field(was, a)
  }

  lemma UpstreamIsGiven(was: Fields, labels: seq<string>)
    ensures UpstreamGiven(was, WithUpstream(was, labels), labels)
  {}
}
