/** The two JSON manifests of the copied template, and the field assignments that personalise them:
    `projectPackageJson.name = projectName` in `package.json`, and `gameManifest.name = projectName`,
    `gameManifest.friendlyName = toTitleCase(projectName)` in `game.v1.json`. */
module Manifest {
  import opened Errors
  import opened TitleCasing

  /** A parsed JSON value. Numbers keep their literal text. */
  datatype Json =
    | Null
    | Bool(b: bool)
    | Number(literal: string)
    | Str(s: string)
    | Array(items: seq<Json>)
    | Object(members: Members)

  /** The properties of a JSON object in the order `JSON.stringify` writes them. */
  type Members = seq<(string, Json)>

  /** The property names, in order. */
  function Keys(o: Members): (keys: seq<string>)
    ensures |keys| == |o|
  {
    if o == [] then [] else [o[0].0] + Keys(o[1..])
  }

  lemma {:induction false} KeysAre(o: Members)
    ensures forall i :: 0 <= i < |o| ==> Keys(o)[i] == o[i].0
    ensures forall k :: Has(o, k) <==> k in Keys(o)
    decreases |o|
  {
    if o != [] {
      KeysAre(o[1..]);
      assert forall i :: 0 < i < |o| ==> Keys(o)[i] == Keys(o[1..])[i - 1] && o[i] == o[1..][i - 1];
    }
  }

  /** Whether the object has property `key`. */
  predicate Has(o: Members, key: string)
  {
    o != [] && (o[0].0 == key || Has(o[1..], key))
  }

  /** What `JSON.parse` produces: no key twice. */
  predicate UniqueKeys(o: Members)
  {
    o == [] || (!Has(o[1..], o[0].0) && UniqueKeys(o[1..]))
  }

  /** Reading property `key`: the value of its first entry (in a manifest without repeated keys, its
      only entry). */
  function Get(o: Members, key: string): (r: Option<Json>)
    ensures r.Some? <==> Has(o, key)
    ensures r.Some? ==> exists i :: 0 <= i < |o| && o[i] == (key, r.value)
                                    && forall j :: 0 <= j < i ==> o[j].0 != key
  {
    if o == [] then None
    else if o[0].0 == key then Some(o[0].1)
    else
      var r := Get(o[1..], key);
      assert forall i :: 0 < i < |o| ==> o[1..][i - 1] == o[i];
      r
  }

  /** Assigning `o[key] = v`: an existing property keeps its place and takes the new value, a new one
      is added last. */
  function Set(o: Members, key: string, v: Json): (r: Members)
    ensures Get(r, key) == Some(v)
    ensures forall k :: k != key ==> Get(r, k) == Get(o, k)
    ensures Keys(r) == Keys(o) + (if Has(o, key) then [] else [key])
    decreases |o|
  {
    if o == [] then [(key, v)]
    else if o[0].0 == key then
      var r := [(key, v)] + o[1..];
      assert r[1..] == o[1..];
      r
    else
      var r := [o[0]] + Set(o[1..], key, v);
      assert r[1..] == Set(o[1..], key, v);
      r
  }

  /** The assignment touches no other position. */
  lemma {:induction false} SetInPlace(o: Members, key: string, v: Json)
    ensures forall i :: 0 <= i < |o| && o[i].0 != key ==> Set(o, key, v)[i] == o[i]
    decreases |o|
  {
    var r := Set(o, key, v);
    if o != [] && o[0].0 != key {
      var rest := Set(o[1..], key, v);
      SetInPlace(o[1..], key, v);
      assert forall i :: 0 < i < |r| ==> r[i] == rest[i - 1];
      assert forall i :: 0 < i < |o| ==> o[1..][i - 1] == o[i];
    } else if o != [] {
      assert forall i :: 0 < i < |o| ==> r[i] == o[i];
    }
  }

  /** The assignment keeps the keys distinct. */
  lemma {:induction false} SetKeepsKeysUnique(o: Members, key: string, v: Json)
    requires UniqueKeys(o)
    ensures UniqueKeys(Set(o, key, v))
    decreases |o|
  {
    if o != [] && o[0].0 != key {
      SetKeepsKeysUnique(o[1..], key, v);
      assert Get(Set(o[1..], key, v), o[0].0) == Get(o[1..], o[0].0);
    }
  }

  /** Assigning a property the value it already has changes nothing. */
  lemma {:induction false} SetSameValue(o: Members, key: string, v: Json)
    requires Get(o, key) == Some(v)
    ensures Set(o, key, v) == o
    decreases |o|
  {
    if o[0].0 != key {
      SetSameValue(o[1..], key, v);
    }
  }

  /** `projectPackageJson.name = projectName`. */
  function RewritePackage(pkg: Members, name: string): (r: Members)
  {
    Set(pkg, "name", Str(name))
  }

  /** `gameManifest.name = projectName; gameManifest.friendlyName = toTitleCase(projectName)`. */
  function RewriteGame(game: Members, name: string): (r: Members)
  {
    Set(Set(game, "name", Str(name)), "friendlyName", Str(TitleCase(name)))
  }

  /** The package manifest names the project; every other property, and the order of all
      properties, stays as it was. */
  lemma {:induction false} RewritePackageFields(pkg: Members, name: string)
    ensures Get(RewritePackage(pkg, name), "name") == Some(Str(name))
    ensures forall k :: k != "name" ==> Get(RewritePackage(pkg, name), k) == Get(pkg, k)
    ensures Keys(RewritePackage(pkg, name)) == Keys(pkg) + (if Has(pkg, "name") then [] else ["name"])
    ensures UniqueKeys(pkg) ==> UniqueKeys(RewritePackage(pkg, name))
  {
    if UniqueKeys(pkg) {
      SetKeepsKeysUnique(pkg, "name", Str(name));
    }
  }

  /** The game manifest carries the project name and its title-cased friendly name; every other
      property stays, existing properties keep their places, and missing ones are added in the order
      they are assigned. */
  lemma {:induction false} RewriteGameFields(game: Members, name: string)
    ensures Get(RewriteGame(game, name), "name") == Some(Str(name))
    ensures Get(RewriteGame(game, name), "friendlyName") == Some(Str(TitleCase(name)))
    ensures forall k :: k != "name" && k != "friendlyName" ==> Get(RewriteGame(game, name), k) == Get(game, k)
    ensures Keys(RewriteGame(game, name)) ==
      Keys(game) + (if Has(game, "name") then [] else ["name"])
        + (if Has(game, "friendlyName") then [] else ["friendlyName"])
    ensures UniqueKeys(game) ==> UniqueKeys(RewriteGame(game, name))
  {
    var once := Set(game, "name", Str(name));
    assert "friendlyName" != "name";
    assert Get(once, "friendlyName") == Get(game, "friendlyName");
    if UniqueKeys(game) {
      SetKeepsKeysUnique(game, "name", Str(name));
      SetKeepsKeysUnique(once, "friendlyName", Str(TitleCase(name)));
    }
  }

  /** Personalising an already personalised manifest changes nothing. */
  lemma {:induction false} RewriteIdempotent(pkg: Members, game: Members, name: string)
    ensures RewritePackage(RewritePackage(pkg, name), name) == RewritePackage(pkg, name)
    ensures RewriteGame(RewriteGame(game, name), name) == RewriteGame(game, name)
  {
    SetSameValue(RewritePackage(pkg, name), "name", Str(name));
    var g := RewriteGame(game, name);
    SetSameValue(g, "name", Str(name));
    SetSameValue(g, "friendlyName", Str(TitleCase(name)));
  }
}
