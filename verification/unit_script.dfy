/** The state logic of the script the unit generator is meant to embed in
    every page, with line 79's key helpers kept as text (`\${id}`, `\${qid}`)
    so that the keys are built in the browser; as written the generator
    throws there instead (see `UnitRun`). In that script the review
    level of a blank cycles through none, ok, warn and ng on a right click;
    reset-all removes the page's saved state; export and import move that
    state through a JSON object. The browser's local store is an immutable
    map from keys to stored text; `JSON.stringify` and `String(v)` are
    parameters. */
module UnitScript {
  import opened JsValue
  import opened Text

  /** The key of a blank's saved record. */
  const MaskPrefix := "mask:"
  /** The key of a question card's saved level. */
  const LevelPrefix := "qlevel:"
  /** The key of the saved colour theme. */
  const ThemeKey := "pref:theme"

  type Storage = map<string, string>

  // ----- the level cycle -----

  /** `order[order.indexOf(cur) + 1]` with `order = [null,'ok','warn','ng',null]`;
      an attribute that is absent or empty reads as `null`, and a value not in
      the list has index -1, giving `null`. */
  function NextLevel(cur: Option<string>): (next: Option<string>)
    ensures next.None? || next.value in {"ok", "warn", "ng"}
  {
    if cur.None? || cur.value == "" then Some("ok")
    else if cur.value == "ok" then Some("warn")
    else if cur.value == "warn" then Some("ng")
    else None
  }

  /** The levels the cycle visits. */
  predicate KnownLevel(cur: Option<string>) {
    cur.None? || cur.value in {"ok", "warn", "ng"}
  }

  /** `n` right clicks in a row. */
  function Cycle(cur: Option<string>, n: nat): Option<string>
    decreases n
  {
    if n == 0 then cur else Cycle(NextLevel(cur), n - 1)
  }

  /** The cycle runs none, ok, warn, ng and back to none. */
  lemma CycleOrder()
    ensures NextLevel(None) == Some("ok") && NextLevel(Some("")) == Some("ok")
    ensures NextLevel(Some("ok")) == Some("warn")
    ensures NextLevel(Some("warn")) == Some("ng")
    ensures NextLevel(Some("ng")) == None
  {
    assert "ng" != "ok" by { assert "ng"[1] != "ok"[1]; }
    assert "ng" != "warn" by { assert "ng"[0] != "warn"[0]; }
  }

  /** Four clicks bring any level the cycle visits back to itself. */
  lemma FourClicksReturn(cur: Option<string>)
    requires KnownLevel(cur)
    ensures Cycle(cur, 4) == cur
  {
    CycleOrder();
  }

  /** A level the cycle does not know clears on the next click. */
  lemma UnknownLevelClears(cur: string)
    requires cur !in {"", "ok", "warn", "ng"}
    ensures NextLevel(Some(cur)) == None
  {
  }

  /** The blank's saved record after a click: what `LS.get` returned (`None`
      when the text is missing or not JSON), with `level` set to the new level
      or dropped (`undefined` is not written by `JSON.stringify`). A falsy
      value is replaced by `{}`; a truthy value that is not an object ignores
      the property write and is saved as it was. */
  function WithLevel(saved: Option<Json>, next: Option<string>): (r: Json)
    ensures r.JObj? ==> forall k :: k != "level" ==> (k in r.fields <==> saved.Some? && saved.value.JObj? && k in saved.value.fields)
    ensures r.JObj? ==> forall k :: k != "level" && k in r.fields ==> r.fields[k] == saved.value.fields[k]
    ensures r.JObj? ==> (("level" in r.fields) <==> next.Some?)
    ensures r.JObj? && next.Some? ==> r.fields["level"] == JStr(next.value)
    ensures !r.JObj? ==> saved.Some? && Truthy(saved.value) && r == saved.value
    ensures saved.Some? && Truthy(saved.value) && !saved.value.JObj? ==> r == saved.value
  {
    var obj := if saved.Some? && Truthy(saved.value) then saved.value else JObj(map[]);
    match obj
    case JObj(fields) =>
      if next.Some? then JObj(fields["level" := JStr(next.value)]) else JObj(fields - {"level"})
    case _ => obj
  }

  /** `cycleLevel` on the store: the blank's new level, and under `mask:<id>`
      its record as read back with the level replaced; no other key changes. */
  function CycleLevel(store: Storage, id: string, cur: Option<string>, parse: string -> Option<Json>,
                      stringify: Json -> string): (r: (Option<string>, Storage))
    ensures r.0 == NextLevel(cur)
    ensures r.1.Keys == store.Keys + {MaskPrefix + id}
    ensures forall k :: k in store && k != MaskPrefix + id ==> r.1[k] == store[k]
    ensures r.1[MaskPrefix + id] ==
              stringify(WithLevel(if MaskPrefix + id in store then parse(store[MaskPrefix + id]) else None, NextLevel(cur)))
  {
    var key := MaskPrefix + id;
    var next := NextLevel(cur);
    var saved := if key in store then parse(store[key]) else None;
    (next, store[key := stringify(WithLevel(saved, next))])
  }

  /** A click never touches the revealed answer saved with the blank. */
  lemma CycleKeepsAnswer(saved: Option<Json>, next: Option<string>)
    requires saved.Some? && saved.value.JObj? && "ans" in saved.value.fields
    ensures WithLevel(saved, next).JObj?
    ensures "ans" in WithLevel(saved, next).fields
    ensures WithLevel(saved, next).fields["ans"] == saved.value.fields["ans"]
  {
    assert "ans" != "level";
  }

  /** `saveMask` after a click reveals a blank: the saved record (or `{}`)
      with `ans` set to the shown text; a blank that is not revealed saves its
      record unchanged. As with the level, a truthy value that is not an
      object keeps no property. */
  function WithAnswer(saved: Option<Json>, revealed: bool, text: string): (r: Json)
    ensures r.JObj? ==> forall k :: k != "ans" ==> (k in r.fields <==> saved.Some? && saved.value.JObj? && k in saved.value.fields)
    ensures r.JObj? ==> forall k :: k != "ans" && k in r.fields ==> r.fields[k] == saved.value.fields[k]
    ensures r.JObj? && revealed ==> "ans" in r.fields && r.fields["ans"] == JStr(text)
    ensures !r.JObj? ==> saved.Some? && Truthy(saved.value) && r == saved.value
    ensures saved.Some? && Truthy(saved.value) && !saved.value.JObj? ==> r == saved.value
    ensures !revealed ==> r == (if saved.Some? && Truthy(saved.value) then saved.value else JObj(map[]))
  {
    var obj := if saved.Some? && Truthy(saved.value) then saved.value else JObj(map[]);
    match obj
    case JObj(fields) => if revealed then JObj(fields["ans" := JStr(text)]) else obj
    case _ => obj
  }

  /** Revealing a blank keeps the level it was marked with. */
  lemma RevealKeepsLevel(saved: Option<Json>, text: string)
    requires saved.Some? && saved.value.JObj? && "level" in saved.value.fields
    ensures WithAnswer(saved, true, text).JObj?
    ensures WithAnswer(saved, true, text).fields["level"] == saved.value.fields["level"]
    ensures WithAnswer(saved, true, text).fields["ans"] == JStr(text)
  {
    assert "level" != "ans";
  }

  /** The theme button: `dark` turns to `light` and everything else, the
      missing attribute included, to `dark`; the new theme is saved as JSON
      under the theme key and no other key changes. */
  function ToggleTheme(store: Storage, cur: Option<string>, stringify: Json -> string): (r: (string, Storage))
    ensures r.0 == "light" <==> cur == Some("dark")
    ensures r.0 == "light" || r.0 == "dark"
    ensures r.1.Keys == store.Keys + {ThemeKey} && r.1[ThemeKey] == stringify(JStr(r.0))
    ensures forall k :: k in store && k != ThemeKey ==> r.1[k] == store[k]
  {
    var shown := if cur.Some? && cur.value != "" then cur.value else "light";
    var next := if shown == "dark" then "light" else "dark";
    assert "light" != "dark";
    (next, store[ThemeKey := stringify(JStr(next))])
  }

  /** Two presses bring back `light` or `dark`, and anything else settles on
      `light`. */
  lemma ToggleTwice(store: Storage, cur: Option<string>, stringify: Json -> string)
    ensures var once := ToggleTheme(store, cur, stringify);
            var twice := ToggleTheme(once.1, Some(once.0), stringify);
            twice.0 == (if cur == Some("dark") then "dark" else "light")
  {
  }

  // ----- the saved-state keys -----

  /** The keys reset, export and import handle: blank records and card levels. */
  predicate Managed(k: string) {
    StartsWith(k, MaskPrefix) || StartsWith(k, LevelPrefix)
  }

  /** The theme key is not one of them. */
  lemma ThemeNotManaged()
    ensures !Managed(ThemeKey)
  {
    assert ThemeKey[0] != MaskPrefix[0];
    assert ThemeKey[0] != LevelPrefix[0];
  }

  /** Reset-all: every managed key removed, every other key kept as it is. */
  function ResetAll(store: Storage): (r: Storage)
    ensures forall k :: k in r <==> k in store && !Managed(k)
    ensures forall k :: k in r ==> r[k] == store[k]
  {
    map k | k in store && !Managed(k) :: store[k]
  }

  /** Resetting twice is resetting once. */
  lemma ResetIdempotent(store: Storage)
    ensures ResetAll(ResetAll(store)) == ResetAll(store)
  {
  }

  /** The saved theme survives a reset. */
  lemma ResetKeepsTheme(store: Storage)
    requires ThemeKey in store
    ensures ThemeKey in ResetAll(store) && ResetAll(store)[ThemeKey] == store[ThemeKey]
  {
    ThemeNotManaged();
  }

  /** The per-card reset button: the records of the card's blanks and the
      card's own level are removed, nothing else. */
  function ResetCard(store: Storage, maskIds: seq<string>, qid: string): (r: Storage)
    ensures forall k :: k in r <==> k in store && k != LevelPrefix + qid && forall i :: 0 <= i < |maskIds| ==> k != MaskPrefix + maskIds[i]
    ensures forall k :: k in r ==> r[k] == store[k]
  {
    map k | k in store && k != LevelPrefix + qid && (forall i :: 0 <= i < |maskIds| ==> k != MaskPrefix + maskIds[i]) :: store[k]
  }

  /** A card reset removes only managed keys, so it never loses anything
      reset-all would keep. */
  lemma ResetCardWithinResetAll(store: Storage, maskIds: seq<string>, qid: string)
    ensures forall k :: k in ResetAll(store) ==> k in ResetCard(store, maskIds, qid)
  {
    forall k | k in ResetAll(store)
      ensures k in ResetCard(store, maskIds, qid)
    {
      if k == LevelPrefix + qid {
        assert StartsWith(k, LevelPrefix);
      }
      forall i | 0 <= i < |maskIds|
        ensures k != MaskPrefix + maskIds[i]
      {
        if k == MaskPrefix + maskIds[i] {
          assert StartsWith(k, MaskPrefix);
        }
      }
    }
  }

  // ----- export and import -----

  /** Export: `{theme: <current theme> || 'light'}` and every managed entry. */
  function Export(store: Storage, theme: Option<string>): (data: map<string, string>)
    ensures "theme" in data && data["theme"] == (if theme.Some? && theme.value != "" then theme.value else "light")
    ensures forall k :: k != "theme" ==> (k in data <==> k in store && Managed(k))
    ensures forall k :: k != "theme" && k in data ==> data[k] == store[k]
  {
    var entries := map k | k in store && Managed(k) :: store[k];
    entries["theme" := if theme.Some? && theme.value != "" then theme.value else "light"]
  }

  /** The text `setItem` stores for a value: strings as they are, anything
      else through `String(v)`. */
  function StoredText(v: Json, toString: Json -> string): string {
    if v.JStr? then v.s else toString(v)
  }

  /** Import of a parsed file. A file that is not JSON (`None`) or `null`
      changes nothing; for an object, every managed key is written, and a
      truthy `theme` is saved under the theme key through `JSON.stringify` and
      becomes the page's theme. Every other key is ignored, and every key not
      in the file keeps its value. */
  function Import(store: Storage, parsed: Option<Json>, toString: Json -> string,
                  stringify: Json -> string): (r: (Storage, Option<Json>))
    ensures parsed.None? || !parsed.value.JObj? ==> r == (store, None)
    ensures parsed.Some? && parsed.value.JObj? ==>
              var f := parsed.value.fields;
              && (forall k :: k in r.0 <==> k in store || (k in f && Managed(k)) || (k == ThemeKey && "theme" in f && Truthy(f["theme"])))
              && (forall k :: k in f && Managed(k) ==> r.0[k] == StoredText(f[k], toString))
              && (forall k :: k in r.0 && !(k in f && Managed(k)) && k != ThemeKey ==> r.0[k] == store[k])
              && ("theme" in f && Truthy(f["theme"]) ==> r.0[ThemeKey] == stringify(f["theme"]) && r.1 == Some(f["theme"]))
              && (!("theme" in f && Truthy(f["theme"])) ==> r.1.None? && (ThemeKey in store ==> r.0[ThemeKey] == store[ThemeKey]))
  {
    if parsed.None? || !parsed.value.JObj? then (store, None)
    else
      var f := parsed.value.fields;
      ThemeNotManaged();
      var written := set k | k in f && Managed(k);
      var copied := map k | k in store.Keys + written :: if k in written then StoredText(f[k], toString) else store[k];
      if "theme" in f && Truthy(f["theme"]) then (copied[ThemeKey := stringify(f["theme"])], Some(f["theme"]))
      else (copied, None)
  }

  /** Exporting, resetting, then importing the exported file restores every
      managed entry exactly, adds no other managed key, and brings back the
      theme. */
  lemma ExportImportRoundTrip(store: Storage, theme: Option<string>, toString: Json -> string, stringify: Json -> string)
    ensures var data := Export(store, theme);
            var file := JObj(map k | k in data :: JStr(data[k]));
            var r := Import(ResetAll(store), Some(file), toString, stringify);
            && (forall k :: Managed(k) ==> (k in r.0 <==> k in store))
            && (forall k :: Managed(k) && k in store ==> r.0[k] == store[k])
            && r.1 == Some(JStr(data["theme"]))
  {
    var data := Export(store, theme);
    var f := map k | k in data :: JStr(data[k]);
    var r := Import(ResetAll(store), Some(JObj(f)), toString, stringify);
    ThemeNotManaged();
    ThemeFieldNotManaged();
    assert "theme" in f && Truthy(f["theme"]) by {
      assert data["theme"] != "";
    }
    forall k | Managed(k)
      ensures k in r.0 <==> k in store
    {
      assert k in f <==> k in store;
    }
    forall k | Managed(k) && k in store
      ensures r.0[k] == store[k]
    {
      assert f[k] == JStr(store[k]);
    }
  }

  /** The export's `theme` field is not a managed key. */
  lemma ThemeFieldNotManaged()
    ensures !Managed("theme")
  {
    assert "theme"[0] != MaskPrefix[0];
    assert "theme"[0] != LevelPrefix[0];
  }
}
