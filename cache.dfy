// main.go, lines 52-98: the 900 search words and the per-word decision
// between the cached VVR answer and a fresh request.

module Cache {
  import opened Text
  import opened Types
  import opened Constants
  import opened VvrOsm

  // ---------------------------------------------------------------------
  // Search words

  /** Word number n pairs letter n / |alphabet| with letter n % |alphabet|. */
  function SearchWord(alphabet: seq<string>, n: nat): string
    requires n < |alphabet| * |alphabet|
  {
    alphabet[n / |alphabet|] + alphabet[n % |alphabet|]
  }

  lemma MulMono(a: nat, b: nat, c: nat)
    requires a <= b
    ensures a * c <= b * c
  {
  }

  lemma DivModUnique(a: int, len: int, q: int, r: int)
    requires len > 0 && 0 <= r < len && a == q * len + r
    ensures a / len == q && a % len == r
  {
    var q', r' := a / len, a % len;
    assert a == q' * len + r';
    assert (q - q') * len == r' - r;
    if q > q' {
      MulMono(1, q - q', len);
    } else if q < q' {
      MulMono(1, q' - q, len);
    }
  }

  /** Slot i*len+k of a len*len table is in range and stands for the pair (i, k). */
  lemma Slot(i: nat, k: nat, len: nat)
    requires i < len && k < len
    ensures i * len + k < len * len
    ensures (i * len + k) / len == i && (i * len + k) % len == k
  {
    assert (i + 1) * len == i * len + len;
    MulMono(i + 1, len, len);
    DivModUnique(i * len + k, len, i, k);
  }

  /** Slot i*len+k holds letter i followed by letter k. */
  lemma SearchWordSlot(alphabet: seq<string>, i: nat, k: nat)
    requires i < |alphabet| && k < |alphabet|
    ensures i * |alphabet| + k < |alphabet| * |alphabet|
    ensures SearchWord(alphabet, i * |alphabet| + k) == alphabet[i] + alphabet[k]
  {
    Slot(i, k, |alphabet|);
  }

  /** The nested loop that fills `searchWords` from the alphabet. */
  method SearchWords(alphabet: seq<string>) returns (words: seq<string>)
    ensures |words| == |alphabet| * |alphabet|
    ensures forall n :: 0 <= n < |words| ==> words[n] == SearchWord(alphabet, n)
  {
    var len := |alphabet|;
    var a := new string[len * len];
    for i := 0 to len
      invariant forall m :: 0 <= m < i * len ==> a[m] == SearchWord(alphabet, m)
    {
      ghost var row := i * len;
      assert row + len == (i + 1) * len;
      MulMono(i + 1, len, len);
      for k := 0 to len
        invariant forall m :: 0 <= m < row + k ==> a[m] == SearchWord(alphabet, m)
      {
        SearchWordSlot(alphabet, i, k);
        a[i * len + k] := alphabet[i] + alphabet[k];
      }
    }
    words := a[..];
  }

  /** With the 30 letters of the program there are 900 words, pairwise distinct. */
  lemma SearchWordsDistinct(m: nat, n: nat)
    requires m < 900 && n < 900 && m != n
    ensures |Alphabet| * |Alphabet| == 900
    ensures SearchWord(Alphabet, m) != SearchWord(Alphabet, n)
  {
    AlphabetDistinct();
    var a, b := SearchWord(Alphabet, m), SearchWord(Alphabet, n);
    assert a[0] == Alphabet[m / 30][0] && b[0] == Alphabet[n / 30][0];
    assert a[1] == Alphabet[m % 30][0] && b[1] == Alphabet[n % 30][0];
    if m / 30 != n / 30 {
      assert Alphabet[m / 30] != Alphabet[n / 30];
      assert Alphabet[m / 30] == [a[0]] && Alphabet[n / 30] == [b[0]];
    } else {
      assert m % 30 != n % 30;
      assert Alphabet[m % 30] != Alphabet[n % 30];
      assert Alphabet[m % 30] == [a[1]] && Alphabet[n % 30] == [b[1]];
    }
  }

  // ---------------------------------------------------------------------
  // Cache decision

  /** The answer of the VVR web service for one word; the request itself is I/O. */
  datatype Fetch = Fetched(stops: seq<VvrBusStop>) | FetchFailed

  /** A cached answer is stale when it is older than CacheTimeVvrInHours (times in seconds). */
  predicate IsStale(c: VvrCity, now: int)
  {
    c.resultTimeStamp < now - CacheTimeVvrInHours * 3600
  }

  /**
   * What one search word contributes to the new VVR data: a fresh answer
   * when there is no cached one or it is stale, the cached one when it is
   * fresh, the cached one again when the request fails, nothing when the
   * request fails and nothing is cached.
   */
  function Refresh(word: string, cached: Option<VvrCity>, now: int, fetch: Fetch): Option<VvrCity>
  {
    if cached.Some? && !IsStale(cached.value, now) then cached
    else if fetch.FetchFailed? then cached
    else Some(VvrCity(word, now, fetch.stops))
  }

  /** The cached answer for `word`, found as getCityResultFromData finds it. */
  function Cached(prev: VvrData, word: string): Option<VvrCity>
  {
    match CityIndex(prev.cityResults, word)
    case None => None
    case Some(j) => Some(prev.cityResults[j])
  }

  function OptionToSeq(o: Option<VvrCity>): seq<VvrCity>
  {
    if o.Some? then [o.value] else []
  }

  /** The city results the loop builds from the words, in word order. */
  function Refreshed(words: seq<string>, prev: VvrData, now: int, fetch: string -> Fetch): seq<VvrCity>
  {
    if words == [] then []
    else
      var w := words[|words| - 1];
      Refreshed(words[..|words| - 1], prev, now, fetch) + OptionToSeq(Refresh(w, Cached(prev, w), now, fetch(w)))
  }

  /**
   * The loop over the search words. `now` is the clock and `fetch` the web
   * request, both given from outside; every fresh answer is stamped `now`.
   */
  method UpdateVvrData(words: seq<string>, oldVvr: VvrData, now: int, fetch: string -> Fetch) returns (newVvr: VvrData)
    ensures newVvr.cityResults == Refreshed(words, oldVvr, now, fetch)
  {
    newVvr := VvrData([]);
    for i := 0 to |words|
      invariant newVvr.cityResults == Refreshed(words[..i], oldVvr, now, fetch)
    {
      assert words[..i + 1][..i] == words[..i];
      var isNewApiCallNeeded := false;
      var oldVvrCity := GetCityResultFromData(words[i], oldVvr);
      if oldVvrCity.Some? {
        if IsStale(oldVvr.cityResults[oldVvrCity.value], now) {
          isNewApiCallNeeded := true;
        }
      } else {
        isNewApiCallNeeded := true;
      }
      if isNewApiCallNeeded {
        var answer := fetch(words[i]);
        if answer.FetchFailed? {
          if oldVvrCity.Some? {
            newVvr := newVvr.(cityResults := newVvr.cityResults + [oldVvr.cityResults[oldVvrCity.value]]);
          }
          continue;
        }
        var newVvrCity := VvrCity(words[i], now, answer.stops);
        newVvr := newVvr.(cityResults := newVvr.cityResults + [newVvrCity]);
      } else {
        newVvr := newVvr.(cityResults := newVvr.cityResults + [oldVvr.cityResults[oldVvrCity.value]]);
      }
    }
    assert words[..|words|] == words;
  }

  /** Every entry of the new data answers one of the words, and there is at most one entry per word. */
  lemma {:induction false} RefreshedShape(words: seq<string>, prev: VvrData, now: int, fetch: string -> Fetch)
    ensures |Refreshed(words, prev, now, fetch)| <= |words|
    ensures forall j :: 0 <= j < |Refreshed(words, prev, now, fetch)| ==> Refreshed(words, prev, now, fetch)[j].searchWord in words
  {
    if words != [] {
      var init := words[..|words| - 1];
      var w := words[|words| - 1];
      RefreshedShape(init, prev, now, fetch);
      RefreshSearchWord(w, Cached(prev, w), now, fetch(w));
      var r := Refreshed(words, prev, now, fetch);
      forall j | 0 <= j < |r| ensures r[j].searchWord in words {
        if j < |Refreshed(init, prev, now, fetch)| {
          assert r[j] == Refreshed(init, prev, now, fetch)[j];
          assert r[j].searchWord in init;
        }
      }
    }
  }

  /** An entry kept from the cache or fetched anew belongs to the word it was chosen for. */
  lemma RefreshSearchWord(word: string, cached: Option<VvrCity>, now: int, fetch: Fetch)
    requires cached.Some? ==> cached.value.searchWord == word
    ensures Refresh(word, cached, now, fetch).Some? ==> Refresh(word, cached, now, fetch).value.searchWord == word
  {
  }

  lemma CachedSearchWord(prev: VvrData, word: string)
    ensures Cached(prev, word).Some? ==> Cached(prev, word).value.searchWord == word
  {
  }

  /** `r` holds the entry `d` chosen for `w` once it exists, and no other entry for `w`. */
  ghost predicate EntryFor(r: seq<VvrCity>, w: string, d: Option<VvrCity>)
  {
    && (d.None? ==> forall j :: 0 <= j < |r| ==> r[j].searchWord != w)
    && (d.Some? ==> exists j :: 0 <= j < |r| && r[j] == d.value)
    && (forall j :: 0 <= j < |r| && r[j].searchWord == w ==> d.Some? && r[j] == d.value)
  }

  lemma EntryForAppend(ri: seq<VvrCity>, w: string, d: Option<VvrCity>, extra: seq<VvrCity>)
    requires EntryFor(ri, w, d)
    requires forall j :: 0 <= j < |extra| ==> extra[j].searchWord != w
    ensures EntryFor(ri + extra, w, d)
  {
    var r := ri + extra;
    if d.Some? {
      var j :| 0 <= j < |ri| && ri[j] == d.value;
      assert r[j] == d.value;
    }
    assert forall j :: 0 <= j < |ri| ==> r[j] == ri[j];
    assert forall j :: |ri| <= j < |r| ==> r[j] == extra[j - |ri|];
  }

  lemma EntryForLast(ri: seq<VvrCity>, w: string, d: Option<VvrCity>)
    requires forall j :: 0 <= j < |ri| ==> ri[j].searchWord != w
    requires d.Some? ==> d.value.searchWord == w
    ensures EntryFor(ri + OptionToSeq(d), w, d)
  {
    var r := ri + OptionToSeq(d);
    if d.Some? {
      assert r[|ri|] == d.value;
    }
    assert forall j :: 0 <= j < |ri| ==> r[j] == ri[j];
  }

  /**
   * For distinct words, the new entries of `w` are exactly what the decision
   * for `w` produced: one entry iff there was a cached answer or the request
   * succeeded, and that entry is the one Refresh chose.
   */
  lemma {:induction false} RefreshedEntry(words: seq<string>, prev: VvrData, now: int, fetch: string -> Fetch, w: string)
    requires forall i, j :: 0 <= i < j < |words| ==> words[i] != words[j]
    requires w in words
    ensures var r := Refreshed(words, prev, now, fetch);
      var d := Refresh(w, Cached(prev, w), now, fetch(w));
      && (d.Some? <==> Cached(prev, w).Some? || fetch(w).Fetched?)
      && EntryFor(r, w, d)
  {
    var init := words[..|words| - 1];
    var last := words[|words| - 1];
    var r := Refreshed(words, prev, now, fetch);
    var ri := Refreshed(init, prev, now, fetch);
    var dl := Refresh(last, Cached(prev, last), now, fetch(last));
    var d := Refresh(w, Cached(prev, w), now, fetch(w));
    assert r == ri + OptionToSeq(dl);
    CachedSearchWord(prev, last);
    RefreshSearchWord(last, Cached(prev, last), now, fetch(last));
    if w == last {
      assert w !in init by {
        forall i | 0 <= i < |init| ensures init[i] != w {
          assert init[i] == words[i];
        }
      }
      RefreshedShape(init, prev, now, fetch);
      forall j | 0 <= j < |ri| ensures ri[j].searchWord != w {
        assert ri[j].searchWord in init;
      }
      EntryForLast(ri, w, dl);
    } else {
      assert w in init by {
        var i :| 0 <= i < |words| && words[i] == w;
        assert i < |words| - 1;
        assert init[i] == w;
      }
      RefreshedEntry(init, prev, now, fetch, w);
      EntryForAppend(ri, w, d, OptionToSeq(dl));
    }
  }
}
