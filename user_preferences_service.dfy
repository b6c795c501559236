/**
 * The user-preferences service: one object of settings, replaced by a
 * shallow merge on `update` and by a fresh copy of the defaults on `reset`.
 */
module UserPreferences {

  /** A JSON value as read from the preferences file. */
  datatype Json =
    | JNull
    | JBool(b: bool)
    | JNumber(n: int)
    | JString(s: string)
    | JArray(items: seq<Json>)
    | JObject(fields: map<string, Json>)

  type Preferences = map<string, Json>

  /** `{ ...current, ...updates }`: the keys of `updates` win, every other key is kept. */
  function MergePreferences(current: Preferences, updates: Preferences): (r: Preferences)
    ensures r.Keys == current.Keys + updates.Keys
    ensures forall k :: k in updates ==> r[k] == updates[k]
    ensures forall k :: k in current && k !in updates ==> r[k] == current[k]
  {
    current + updates
  }

  /** `update({})` changes nothing. */
  lemma MergeEmpty(current: Preferences)
    ensures MergePreferences(current, map[]) == current
  {
  }

  /** Applying the same updates twice is the same as applying them once. */
  lemma MergeIdempotent(current: Preferences, updates: Preferences)
    ensures MergePreferences(MergePreferences(current, updates), updates) == MergePreferences(current, updates)
  {
  }

  /** Two updates in a row are one update with the later values winning on shared keys. */
  lemma MergeLaterWins(current: Preferences, first: Preferences, second: Preferences)
    ensures MergePreferences(MergePreferences(current, first), second)
         == MergePreferences(current, MergePreferences(first, second))
    ensures forall k :: k in second ==> MergePreferences(MergePreferences(current, first), second)[k] == second[k]
  {
  }

  /** The service object: the defaults it was built from and the current preferences. */
  class UserPreferencesService {
    const defaults: Preferences
    var preferences: Preferences

    /** `new UserPreferencesService()` copies the defaults. */
    constructor (initial: Preferences)
      ensures defaults == initial && preferences == initial
    {
      defaults := initial;
      preferences := initial;
    }

    /** `get`: a copy of the current preferences. */
    method Get() returns (r: Preferences)
      ensures r == preferences
    {
      r := preferences;
    }

    /** `update`: shallow-merges `updates` and returns the new preferences. */
    method Update(updates: Preferences) returns (r: Preferences)
      modifies this
      ensures preferences == MergePreferences(old(preferences), updates)
      ensures forall k :: k in updates ==> k in preferences && preferences[k] == updates[k]
      ensures forall k :: k !in updates ==> (k in preferences <==> k in old(preferences))
      ensures forall k :: k !in updates && k in old(preferences) ==> preferences[k] == old(preferences)[k]
      ensures r == preferences
    {
      preferences := MergePreferences(preferences, updates);
      r := preferences;
    }

    /** `reset`: back to exactly the defaults, whatever came before. */
    method Reset() returns (r: Preferences)
      modifies this
      ensures preferences == defaults && r == defaults
    {
      preferences := defaults;
      r := preferences;
    }
  }

  /** Updates followed by a reset leave exactly the defaults, and a second reset changes nothing. */
  method ResetAfterUpdates(initial: Preferences, first: Preferences, second: Preferences)
    returns (afterReset: Preferences, afterSecondReset: Preferences)
    ensures afterReset == initial && afterSecondReset == initial
  {
    var service := new UserPreferencesService(initial);
    var _ := service.Update(first);
    var _ := service.Update(second);
    afterReset := service.Reset();
    afterSecondReset := service.Reset();
  }
}
