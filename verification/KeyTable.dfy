/** The table of the keys the screener asks for: one per expiry and strike, with the expiry it stands for. */
module KeyTable {
  /** An expiry of the window and its days to expiry. */
  type Expiry = (string, int)

  type Namer = (string, int) -> string

  function AddKeys(meta: map<string, Expiry>, key: Namer, e: Expiry, strikes: seq<int>): map<string, Expiry> {
    if strikes == [] then meta
    else AddKeys(meta, key, e, strikes[..|strikes| - 1])[key(e.0, strikes[|strikes| - 1]) := e]
  }

  function KeyMeta(key: Namer, window: seq<Expiry>, strikes: seq<int>): map<string, Expiry> {
    if window == [] then map[]
    else AddKeys(KeyMeta(key, window[..|window| - 1], strikes), key, window[|window| - 1], strikes)
  }

  method BuildKeys(key: Namer, window: seq<Expiry>, strikes: seq<int>) returns (meta: map<string, Expiry>)
    ensures meta == KeyMeta(key, window, strikes)
  {
    meta := map[];
    for i := 0 to |window|
      invariant meta == KeyMeta(key, window[..i], strikes)
    {
      assert window[..i + 1][..i] == window[..i];
      ghost var before := meta;
      for j := 0 to |strikes|
        invariant meta == AddKeys(before, key, window[i], strikes[..j])
      {
        assert strikes[..j + 1][..j] == strikes[..j];
        meta := meta[key(window[i].0, strikes[j]) := window[i]];
      }
      assert strikes[..|strikes|] == strikes;
    }
    assert window[..|window|] == window;
  }

  lemma {:induction false} AddedEntry(
    meta: map<string, Expiry>, key: Namer, e: Expiry, strikes: seq<int>, k: string) returns (d: int)
    requires k in AddKeys(meta, key, e, strikes)
    ensures var x := AddKeys(meta, key, e, strikes)[k];
      (k in meta && x == meta[k]) || (x == e && d in strikes && k == key(e.0, d))
  {
    d := 0;
    if strikes != [] {
      d := strikes[|strikes| - 1];
      if k != key(e.0, d) {
        d := AddedEntry(meta, key, e, strikes[..|strikes| - 1], k);
      }
    }
  }

  /** Every entry stands for an expiry of the window and one of the strikes. */
  lemma {:induction false} EntryIsAsked(key: Namer, window: seq<Expiry>, strikes: seq<int>, k: string) returns (d: int)
    requires k in KeyMeta(key, window, strikes)
    ensures var e := KeyMeta(key, window, strikes)[k]; e in window && d in strikes && k == key(e.0, d)
  {
    var front, last := window[..|window| - 1], window[|window| - 1];
    d := AddedEntry(KeyMeta(key, front, strikes), key, last, strikes, k);
    if !(KeyMeta(key, window, strikes)[k] == last && d in strikes && k == key(last.0, d)) {
      d := EntryIsAsked(key, front, strikes, k);
    }
  }

  lemma {:induction false} AddedKeysHold(meta: map<string, Expiry>, key: Namer, e: Expiry, strikes: seq<int>)
    ensures meta.Keys <= AddKeys(meta, key, e, strikes).Keys
    ensures forall d :: d in strikes ==> key(e.0, d) in AddKeys(meta, key, e, strikes)
  {
    if strikes != [] {
      AddedKeysHold(meta, key, e, strikes[..|strikes| - 1]);
      assert strikes == strikes[..|strikes| - 1] + [strikes[|strikes| - 1]];
    }
  }

  /** Every expiry of the window has an entry for every strike. */
  lemma {:induction false} EveryKeyIsAsked(key: Namer, window: seq<Expiry>, strikes: seq<int>, e: Expiry, d: int)
    requires e in window && d in strikes
    ensures key(e.0, d) in KeyMeta(key, window, strikes)
  {
    var front, last := window[..|window| - 1], window[|window| - 1];
    assert window == front + [last];
    AddedKeysHold(KeyMeta(key, front, strikes), key, last, strikes);
    if e in front {
      EveryKeyIsAsked(key, front, strikes, e, d);
    }
  }

  /** A key that names one expiry stands for that expiry. */
  lemma KeyStandsFor(key: Namer, window: seq<Expiry>, strikes: seq<int>, e: Expiry, d: int)
    requires e in window && d in strikes
    requires forall e', d' :: e' in window && d' in strikes && key(e'.0, d') == key(e.0, d) ==> e' == e
    ensures var k := key(e.0, d); k in KeyMeta(key, window, strikes) && KeyMeta(key, window, strikes)[k] == e
  {
    EveryKeyIsAsked(key, window, strikes, e, d);
    var d' := EntryIsAsked(key, window, strikes, key(e.0, d));
  }
}
