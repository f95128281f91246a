/**
 * The settings controller (server/controllers/settingsController.js) over the
 * `User` table (server/models/User.js). A user's profile columns and their
 * `settings` JSON column are modelled over maps from member names to JSON values.
 */
module SettingsController {
  import opened Wrappers
  import opened Json
  import opened Request
  import Maps
  import Text

  type Object = map<string, Json>

  /**
   * The `settings` column: NULL, an object that `updateSettings` wrote, or any
   * JSON value that `updateProfile` copied from a request body.
   */
  datatype Column = Null | Members(members: Object) | Value(value: Json)

  /** A stored user: the profile columns and the `settings` column. */
  datatype User = User(profile: Object, settings: Column)

  /**
   * The columns of the `User` model other than `settings` that
   * `User.update(req.body)` writes; `settings` is handled by `SettingsAfterUpdate`.
   */
  const ProfileColumns: set<string> := {
    "name", "email", "dueDate", "babyName", "gender", "conceptionDate", "doctorName",
    "hospital", "partnerName", "bloodType", "allergies", "notes"
  }

  /** The members of a parsed JSON object; a repeated member name takes its last value, as `JSON.parse` does. */
  function ObjectOf(fields: seq<(string, Json)>): Object
    decreases |fields|
  {
    if fields == [] then map[]
    else
      var last := fields[|fields| - 1];
      ObjectOf(fields[..|fields| - 1])[last.0 := last.1]
  }

  /** The members `"0"`, `"1"`, … that spreading an array or a string produces. */
  function Indexed(items: seq<Json>): Object
    decreases |items|
  {
    if items == [] then map[]
    else Indexed(items[..|items| - 1])[Text.NatToDecimal(|items| - 1) := items[|items| - 1]]
  }

  /**
   * The members `{ ...(settings || {}) }` copies: none for NULL, `false`, `0`
   * and `''` (which `|| {}` replaces by `{}`) nor for other numbers and `true`;
   * the indexed elements of an array or the characters of a string; the members
   * of an object.
   */
  function Spread(c: Column): Object
  {
    match c
    case Null => map[]
    case Members(m) => m
    case Value(v) =>
      match v
      case JObj(fields) => ObjectOf(fields)
      case JArr(items) => Indexed(items)
      case JStr(text) => Indexed(seq(|text|, i requires 0 <= i < |text| => JStr([text[i]])))
      case _ => map[]
  }

  /** `{ ...(current || {}), ...body }`: every body member wins, every other member stays. */
  function MergedSettings(current: Column, body: Object): (m: Object)
    ensures m.Keys == body.Keys + Spread(current).Keys
    ensures forall k :: k in body ==> m[k] == body[k]
    ensures forall k :: k in Spread(current) && k !in body ==> m[k] == Spread(current)[k]
  {
    Maps.Overlay(Spread(current), body)
  }

  /** Merging the same body again changes nothing more. */
  lemma MergedSettingsIdempotent(current: Column, body: Object)
    ensures MergedSettings(Members(MergedSettings(current, body)), body) == MergedSettings(current, body)
  {
    Maps.OverlayIdempotent(Spread(current), body);
  }

  /** The profile after `User.update(body)`: the body's members that name profile columns overwrite them. */
  function UpdatedProfile(profile: Object, body: Object): (p: Object)
    ensures p.Keys == profile.Keys + (body.Keys * ProfileColumns)
    ensures forall k :: k in body && k in ProfileColumns ==> p[k] == body[k]
    ensures forall k :: k in profile && (k !in body || k !in ProfileColumns) ==> p[k] == profile[k]
  {
    profile + map k | k in body && k in ProfileColumns :: body[k]
  }

  /** The `settings` column after `User.update(body)`: a body `settings` member is written as it is, `null` as NULL. */
  function SettingsAfterUpdate(current: Column, body: Object): (c: Column)
    ensures "settings" !in body ==> c == current
    ensures "settings" in body ==> Spread(c) == Spread(Value(body["settings"]))
    ensures "settings" in body && body["settings"] == JNull ==> c == Null
  {
    if "settings" !in body then current
    else if body["settings"] == JNull then Null
    else Value(body["settings"])
  }

  /**
   * Unlike `updateSettings`, `updateProfile` replaces the settings: after a
   * body with a `settings` object, the stored settings spread to exactly that
   * object's members, and nothing of the old settings remains.
   */
  lemma ProfileReplacesSettings(current: Column, body: Object, fields: seq<(string, Json)>)
    requires "settings" in body && body["settings"] == JObj(fields)
    ensures Spread(SettingsAfterUpdate(current, body)) == ObjectOf(fields)
  {
  }

  /** A later settings update merges into what the profile update wrote. */
  lemma MergeAfterProfileUpdate(current: Column, profileBody: Object, fields: seq<(string, Json)>, body: Object)
    requires "settings" in profileBody && profileBody["settings"] == JObj(fields)
    ensures MergedSettings(SettingsAfterUpdate(current, profileBody), body) == Maps.Overlay(ObjectOf(fields), body)
  {
    ProfileReplacesSettings(current, profileBody, fields);
  }

  class UserTable {
    var users: map<int, User>

    constructor (users: map<int, User>)
      ensures this.users == users
    {
      this.users := users;
    }

    /** `getProfile`: the user, or 404 when there is none with that id. */
    method GetProfile(user: Option<int>) returns (reply: Reply<User>)
      ensures EffectiveUser(user) in users <==> reply.Ok?
      ensures reply.Ok? ==> reply == Ok(200, users[EffectiveUser(user)])
      ensures reply.Fail? ==> reply == Fail(404, "Usuario no encontrado")
    {
      var id := EffectiveUser(user);
      if id !in users {
        return Fail(404, "Usuario no encontrado");
      }
      reply := Ok(200, users[id]);
    }

    /**
     * `updateProfile`: 404 when no row was updated; otherwise the body's
     * profile members and its `settings` member are written, and the user is
     * read back.
     */
    method UpdateProfile(user: Option<int>, body: Object) returns (reply: Reply<User>)
      modifies this
      ensures var id := EffectiveUser(user);
              if id in old(users) then
                users == old(users)[id := User(UpdatedProfile(old(users)[id].profile, body),
                                               SettingsAfterUpdate(old(users)[id].settings, body))] &&
                reply == Ok(200, users[id])
              else
                users == old(users) && reply == Fail(404, "Usuario no encontrado")
    {
      var id := EffectiveUser(user);
      var updatedRows := if id in users then 1 else 0;
      if id in users {
        users := users[id := User(UpdatedProfile(users[id].profile, body), SettingsAfterUpdate(users[id].settings, body))];
      }
      if updatedRows == 0 {
        return Fail(404, "Usuario no encontrado");
      }
      reply := Ok(200, users[id]);
    }

    /**
     * `updateSettings`: 404 and no change when the user is missing; otherwise
     * the settings become the merge of the current ones (or `{}`) with the
     * body, and only that settings object is answered.
     */
    method UpdateSettings(user: Option<int>, body: Object) returns (reply: Reply<Object>)
      modifies this
      ensures var id := EffectiveUser(user);
              if id in old(users) then
                users == old(users)[id := old(users)[id].(settings := Members(MergedSettings(old(users)[id].settings, body)))] &&
                reply == Ok(200, MergedSettings(old(users)[id].settings, body))
              else
                users == old(users) && reply == Fail(404, "Usuario no encontrado")
    {
      var id := EffectiveUser(user);
      if id !in users {
        return Fail(404, "Usuario no encontrado");
      }
      var current := users[id].settings;
      var newSettings := MergedSettings(current, body);
      users := users[id := users[id].(settings := Members(newSettings))];
      reply := Ok(200, users[id].settings.members);
    }
  }

  /** Updating settings leaves the profile and every other user as they were. */
  lemma UpdateSettingsLocal(users: map<int, User>, id: int, body: Object, other: int)
    requires id in users && other in users && other != id
    ensures var after := users[id := users[id].(settings := Members(MergedSettings(users[id].settings, body)))];
            after[other] == users[other] && after[id].profile == users[id].profile
  {
  }
}
