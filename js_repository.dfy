/**
 * The untyped JavaScript users repository: an array of arbitrary objects. `create` stores
 * the caller's object as it is (no id is assigned), `update` spreads any update object over
 * the first match (including an `id` key) and answers `null` for an unknown id, and `remove`
 * throws for an unknown id.
 */
module JsRepository {
  import opened Wrappers
  import JsArray

  /**
   * A JavaScript value as `===` sees it: primitives by value, and any object, array or
   * function by its identity `Ref(address)`. Numbers are limited to the safe integers,
   * the integers a double holds exactly.
   */
  datatype JsValue =
    | Undefined
    | Null
    | Bool(b: bool)
    | Num(n: SafeInt)
    | Str(s: string)
    | Ref(address: nat)

  /** `Number.MIN_SAFE_INTEGER` to `Number.MAX_SAFE_INTEGER`. */
  type SafeInt = n: int | -0x1F_FFFF_FFFF_FFFF <= n <= 0x1F_FFFF_FFFF_FFFF

  /** A stored object, by its own enumerable properties. */
  type Item = map<string, JsValue>

  /** `item[key]`: a missing property reads as `undefined`. */
  function Prop(item: Item, key: string): (r: JsValue)
    ensures r == Undefined <==> key !in item || item[key] == Undefined
    ensures r != Undefined ==> key in item && item[key] == r
  {
    if key in item then item[key] else Undefined
  }

  /** `{ ...target, ...source }`: the properties of both, those of `source` winning. */
  function Spread(target: Item, source: Item): (r: Item)
    ensures r.Keys == target.Keys + source.Keys
    ensures forall key :: Prop(r, key) == if key in source then source[key] else Prop(target, key)
  {
    target + source
  }

  /** The callback `(item) => item.id === id`. */
  function IdIs(id: JsValue): Item -> bool {
    (item: Item) => Prop(item, "id") == id
  }

  /** The callback `(item) => item.id !== id`. */
  function IdIsNot(id: JsValue): Item -> bool {
    (item: Item) => Prop(item, "id") != id
  }

  predicate IsDigits(s: string) {
    forall i :: 0 <= i < |s| ==> '0' <= s[i] <= '9'
  }

  /** The number a string of decimal digits denotes. */
  function DigitsValue(s: string): nat
    requires IsDigits(s)
    decreases |s|
  {
    if |s| == 0 then 0
    else DigitsValue(s[..|s| - 1]) * 10 + (s[|s| - 1] as int - '0' as int)
  }

  /**
   * The decimal digits of a natural number, as `String(n)` writes them for a safe integer:
   * digits only, no leading zero, and reading them back gives `n`.
   */
  function NatToString(n: nat): (s: string)
    ensures |s| >= 1 && IsDigits(s)
    ensures s[0] == '0' ==> n == 0 && s == "0"
    ensures DigitsValue(s) == n
    decreases n
  {
    var digit := [('0' as int + n % 10) as char];
    if n < 10 then digit
    else
      var prefix := NatToString(n / 10);
      var s := prefix + digit;
      assert s[..|s| - 1] == prefix;
      s
  }

  /** How a template literal `${v}` writes a value (a plain object prints as "[object Object]"). */
  function Display(v: JsValue): (r: string)
    ensures v == Undefined ==> r == "undefined"
    ensures v == Null ==> r == "null"
    ensures v.Str? ==> r == v.s
    ensures v.Num? && v.n >= 0 ==> |r| >= 1 && (r[0] == '0' ==> r == "0") && IsDigits(r) && DigitsValue(r) == v.n
    ensures v.Num? && v.n < 0 ==> |r| >= 2 && r[0] == '-' && r[1] != '0' && IsDigits(r[1..]) && DigitsValue(r[1..]) == -v.n
    ensures v.Num? ==> |r| <= 17
  {
    match v
    case Undefined => "undefined"
    case Null => "null"
    case Bool(b) => if b then "true" else "false"
    case Num(n) =>
      SafeIntLength(if n < 0 then -n else n);
      if n < 0 then "-" + NatToString(-n) else NatToString(n)
    case Str(s) => s
    case Ref(_) => "[object Object]"
  }

  function Pow10(d: nat): nat {
    if d == 0 then 1 else 10 * Pow10(d - 1)
  }

  /** A number below 10^d has at most d digits. */
  lemma {:induction false} NatLength(n: nat, d: nat)
    requires 1 <= d && n < Pow10(d)
    ensures |NatToString(n)| <= d
    decreases d
  {
    if n >= 10 {
      NatLength(n / 10, d - 1);
    }
  }

  /**
   * A safe integer has at most 16 decimal digits, well below 10^21 (22 digits), from which
   * `String` switches to exponent notation, so `NatToString` writes it as JavaScript does.
   */
  lemma SafeIntLength(n: nat)
    requires n <= 0x1F_FFFF_FFFF_FFFF
    ensures |NatToString(n)| <= 16
  {
    assert Pow10(8) == 100_000_000;
    assert Pow10(16) == 10_000_000_000_000_000;
    NatLength(n, 16);
  }

  class UsersRepository {
    var users: seq<Item>

    /** A new repository is empty. */
    constructor ()
      ensures users == []
    {
      users := [];
    }

    /** `findAll`: the stored objects, in insertion order, as they are. */
    function FindAll(): (r: seq<Item>)
      reads this
      ensures |r| == |users| && forall i :: 0 <= i < |r| ==> r[i] == users[i]
    {
      users
    }

    /**
     * `findById`: the first object whose `id` property is `=== id`, or `None` (`undefined`).
     * An object without an `id` property matches `undefined`.
     */
    function FindById(id: JsValue): (r: Option<Item>)
      reads this
      ensures r.None? <==> forall i :: 0 <= i < |users| ==> Prop(users[i], "id") != id
      ensures r.Some? ==> Prop(r.value, "id") == id && (exists k :: 0 <= k < |users| && users[k] == r.value &&
                                                         forall j :: 0 <= j < k ==> Prop(users[j], "id") != id)
    {
      JsArray.Find(users, IdIs(id))
    }

    /** `create`: appends the given object unchanged and returns it. */
    method Create(item: Item) returns (r: Item)
      modifies this
      ensures r == item
      ensures users == old(users) + [item]
    {
      users := users + [item];
      return item;
    }

    /**
     * `update`: `None` (`null`) and no change when no object has the id; otherwise the first
     * object with the id is replaced by the spread of `updateData` over it, and returned.
     */
    method Update(id: JsValue, updateData: Item) returns (r: Option<Item>)
      modifies this
      ensures JsArray.FindIndex(old(users), IdIs(id)) == -1 ==> r == None && users == old(users)
      ensures JsArray.FindIndex(old(users), IdIs(id)) != -1 ==>
        var k := JsArray.FindIndex(old(users), IdIs(id));
        && r == Some(Spread(old(users)[k], updateData))
        && users == old(users)[k := r.value]
      ensures r.Some? ==> Prop(r.value, "id") == if "id" in updateData then updateData["id"] else id
      ensures r.Some? && Prop(r.value, "id") == id ==> FindById(id) == r
    {
      var index := JsArray.FindIndex(users, IdIs(id));
      if index != -1 {
        var updated := Spread(users[index], updateData);
        if Prop(updated, "id") == id {
          JsArray.FindAfterReplace(users, IdIs(id), updated);
        }
        users := users[index := updated];
        return Some(users[index]);
      }
      return None;
    }

    /**
     * `remove`: throws when no object has the id; otherwise drops every object with the id,
     * keeping the others in order, and returns the first object that had it.
     */
    method Remove(id: JsValue) returns (r: Result<Item, Error>)
      modifies this
      ensures JsArray.FindIndex(old(users), IdIs(id)) == -1 ==>
        && r == Failure(Error("User with id " + Display(id) + " not found"))
        && users == old(users)
      ensures JsArray.FindIndex(old(users), IdIs(id)) != -1 ==>
        && r == Success(old(users)[JsArray.FindIndex(old(users), IdIs(id))])
        && users == JsArray.Filter(old(users), IdIsNot(id))
      ensures FindById(id) == None
      ensures forall other :: other != id ==> FindById(other) == old(FindById(other))
    {
      var userToRemove := FindById(id);
      if userToRemove.None? {
        return Failure(Error("User with id " + Display(id) + " not found"));
      }
      forall other | other != id
        ensures JsArray.Find(JsArray.Filter(users, IdIsNot(id)), IdIs(other)) == JsArray.Find(users, IdIs(other))
      {
        JsArray.FindThroughFilter(users, IdIsNot(id), IdIs(other));
      }
      users := JsArray.Filter(users, IdIsNot(id));
      return Success(userToRemove.value);
    }
  }

  /**
   * Because the update object may carry an `id`, `update` can give a second object an id that
   * is already stored: updating id 1 with `{ id: 2 }` in `[{ id: 1 }, { id: 2 }]` leaves two
   * objects with id 2, and a lookup of 2 then finds the updated one.
   */
  lemma UpdateCanDuplicateIds()
    ensures var users := [map["id" := Num(1)], map["id" := Num(2)]];
      var k := JsArray.FindIndex(users, IdIs(Num(1)));
      var after := users[k := Spread(users[k], map["id" := Num(2)])];
      && k == 0
      && Prop(after[0], "id") == Prop(after[1], "id") == Num(2)
      && JsArray.Find(after, IdIs(Num(2))) == Some(after[0])
  {
  }

  /**
   * An object created without an `id` property is found by a lookup of `undefined`
   * when every earlier object has an `id` that is not `undefined`.
   */
  lemma IdlessItemMatchesUndefined(users: seq<Item>, item: Item)
    requires "id" !in item
    requires forall i :: 0 <= i < |users| ==> Prop(users[i], "id") != Undefined
    ensures JsArray.Find(users + [item], IdIs(Undefined)) == Some(item)
  {
    JsArray.FindAfterAppend(users, IdIs(Undefined), item);
  }
}
