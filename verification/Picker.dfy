/** The picker's fuzzy match, one greedy pass over bytes, and the list filter built on it. */
module Picker {
  import opened Utf8Bytes

  /** `f` embeds the pattern into the text: strictly increasing positions holding equal bytes. */
  ghost predicate IsEmbedding(f: seq<nat>, text: seq<Byte>, pattern: seq<Byte>) {
    && |f| == |pattern|
    && (forall i :: 0 <= i < |f| ==> f[i] < |text| && text[f[i]] == pattern[i])
    && (forall i, j :: 0 <= i < j < |f| ==> f[i] < f[j])
  }

  /** The pattern is a subsequence of the text, decided from the ends. */
  predicate Embeds(text: seq<Byte>, pattern: seq<Byte>)
    decreases |text|
  {
    if pattern == [] then true
    else if text == [] then false
    else
      var t, p := |text| - 1, |pattern| - 1;
      Embeds(text[..t], if text[t] == pattern[p] then pattern[..p] else pattern)
  }

  lemma {:induction false} EmbeddingOf(text: seq<Byte>, pattern: seq<Byte>) returns (f: seq<nat>)
    requires Embeds(text, pattern)
    ensures IsEmbedding(f, text, pattern)
    decreases |text|
  {
    if pattern == [] {
      f := [];
    } else {
      var t, p := |text| - 1, |pattern| - 1;
      if text[t] == pattern[p] {
        var g := EmbeddingOf(text[..t], pattern[..p]);
        f := g + [t];
      } else {
        f := EmbeddingOf(text[..t], pattern);
      }
    }
  }

  lemma {:induction false} EmbeddedMeansEmbeds(f: seq<nat>, text: seq<Byte>, pattern: seq<Byte>)
    requires IsEmbedding(f, text, pattern)
    ensures Embeds(text, pattern)
    decreases |text|
  {
    if pattern != [] {
      var t, p := |text| - 1, |pattern| - 1;
      assert f[p] < |text|;
      if text[t] == pattern[p] {
        assert forall i :: 0 <= i < p ==> f[i] < f[p];
        assert IsEmbedding(f[..p], text[..t], pattern[..p]);
        EmbeddedMeansEmbeds(f[..p], text[..t], pattern[..p]);
      } else {
        assert forall i :: 0 <= i < p ==> f[i] < f[p];
        assert IsEmbedding(f, text[..t], pattern);
        EmbeddedMeansEmbeds(f, text[..t], pattern);
      }
    }
  }

  /** Deciding from the ends and choosing positions freely come to the same. */
  lemma EmbedsIffEmbedding(text: seq<Byte>, pattern: seq<Byte>)
    ensures Embeds(text, pattern) <==> exists f :: IsEmbedding(f, text, pattern)
  {
    if Embeds(text, pattern) {
      var f := EmbeddingOf(text, pattern);
    }
    if f :| IsEmbedding(f, text, pattern) {
      EmbeddedMeansEmbeds(f, text, pattern);
    }
  }

  lemma EmbedsPrefix(text: seq<Byte>, pattern: seq<Byte>)
    requires pattern != [] && Embeds(text, pattern)
    ensures Embeds(text, pattern[..|pattern| - 1])
  {
    var f := EmbeddingOf(text, pattern);
    assert IsEmbedding(f[..|f| - 1], text, pattern[..|pattern| - 1]);
    EmbeddedMeansEmbeds(f[..|f| - 1], text, pattern[..|pattern| - 1]);
  }

  /** One more byte of text keeps the longest matched prefix, or grows it by the byte it waits for. */
  lemma GreedyStep(text: seq<Byte>, b: Byte, pattern: seq<Byte>, pi: nat)
    requires pi <= |pattern| && Embeds(text, pattern[..pi])
    requires pi < |pattern| ==> !Embeds(text, pattern[..pi + 1])
    ensures var pi' := if pi < |pattern| && b == pattern[pi] then pi + 1 else pi;
            && Embeds(text + [b], pattern[..pi'])
            && (pi' < |pattern| ==> !Embeds(text + [b], pattern[..pi' + 1]))
  {
    var text' := text + [b];
    assert text'[..|text|] == text;
    if pi > 0 { EmbedsPrefix(text, pattern[..pi]); }
    assert pi > 0 ==> pattern[..pi][..pi - 1] == pattern[..pi - 1];
    if pi < |pattern| {
      assert pattern[..pi + 1][..pi] == pattern[..pi];
      if b == pattern[pi] && pi + 1 < |pattern| {
        assert pattern[..pi + 2][..pi + 1] == pattern[..pi + 1];
        if Embeds(text, pattern[..pi + 2]) { EmbedsPrefix(text, pattern[..pi + 2]); }
      }
    }
  }

  method FuzzyMatch(text: seq<Byte>, pattern: seq<Byte>) returns (matches: bool)
    ensures matches <==> Embeds(text, pattern)
    ensures matches <==> exists f :: IsEmbedding(f, text, pattern)
  {
    var pi := 0;
    for i := 0 to |text|
      invariant pi <= |pattern| && Embeds(text[..i], pattern[..pi])
      invariant pi < |pattern| ==> !Embeds(text[..i], pattern[..pi + 1])
    {
      GreedyStep(text[..i], text[i], pattern, pi);
      assert text[..i] + [text[i]] == text[..i + 1];
      if pi < |pattern| && text[i] == pattern[pi] {
        pi := pi + 1;
      }
    }
    assert text[..|text|] == text && pattern[..|pattern|] == pattern;
    EmbedsIffEmbedding(text, pattern);
    if pi < |pattern| && Embeds(text, pattern) { PrefixesEmbed(text, pattern, pi + 1); }
    return pi == |pattern|;
  }

  lemma {:induction false} PrefixesEmbed(text: seq<Byte>, pattern: seq<Byte>, k: nat)
    requires k <= |pattern| && Embeds(text, pattern)
    ensures Embeds(text, pattern[..k])
    decreases |pattern|
  {
    if k < |pattern| {
      EmbedsPrefix(text, pattern);
      PrefixesEmbed(text, pattern[..|pattern| - 1], k);
      assert pattern[..|pattern| - 1][..k] == pattern[..k];
    } else {
      assert pattern[..k] == pattern;
    }
  }

  ghost predicate Ascending(s: seq<nat>) { forall i, j :: 0 <= i < j < |s| ==> s[i] < s[j] }

  /** An item is listed when the query's bytes embed into the item's, both in lower case. */
  predicate Listed(item: string, query: string, lower: string -> string) {
    Embeds(Encode(lower(item)), Encode(lower(query)))
  }

  class PickerView {
    var items: seq<string>
    var filtered: seq<nat>
    var selected: nat

    constructor (names: seq<string>)
      ensures items == names && filtered == [] && selected == 0
    {
      items, filtered, selected := names, [], 0;
    }

    /** Lists exactly the matching items, in order, with the selection on the first. */
    method Filter(query: string, lower: string -> string)
      modifies `filtered, `selected
      ensures IsListing(filtered, items, query, lower)
      ensures selected == 0 && (filtered != [] ==> selected < |filtered|)
    {
      if lower(query) == "" {
        filtered := seq(|items|, i => i);
        EverythingListed(filtered, items, query, lower);
      } else {
        filtered := [];
        for n := 0 to |items|
          invariant IsListing(filtered, items[..n], query, lower)
        {
          var matches := FuzzyMatch(Encode(lower(items[n])), Encode(lower(query)));
          ListOneMore(filtered, items[..n], items[n], query, lower);
          assert items[..n] + [items[n]] == items[..n + 1];
          if matches {
            filtered := filtered + [n];
          }
        }
        assert items[..|items|] == items;
      }
      selected := 0;
    }
  }

  /** The indices of the matching items, ascending. */
  ghost predicate IsListing(s: seq<nat>, items: seq<string>, query: string, lower: string -> string) {
    Ascending(s) && forall i: nat :: i in s <==> i < |items| && Listed(items[i], query, lower)
  }

  lemma EverythingListed(s: seq<nat>, items: seq<string>, query: string, lower: string -> string)
    requires lower(query) == "" && |s| == |items| && forall i: nat :: i < |s| ==> s[i] == i
    ensures IsListing(s, items, query, lower)
  {
    assert Encode(lower(query)) == [];
    forall i: nat ensures i in s <==> i < |items| && Listed(items[i], query, lower) {
      if i < |items| { assert s[i] == i; }
    }
  }

  lemma ListOneMore(s: seq<nat>, items: seq<string>, item: string, query: string, lower: string -> string)
    requires IsListing(s, items, query, lower)
    ensures IsListing(if Listed(item, query, lower) then s + [|items|] else s, items + [item], query, lower)
  {
    forall k | 0 <= k < |s| ensures s[k] < |items| { assert s[k] in s; }
  }
}
