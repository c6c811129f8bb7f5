/** What the mobile app's modules share: the location records the API
    returns, the outcome of an HTTP call, the side effects a proximity scan
    produces, and the device's secure key/value storage. */
module Mobile {
  import opened Wrappers
  import opened Schema

  /** A catalogue entry as `GET /locations` returns it. */
  datatype LocationData = LocationData(id: Id, name: string, position: Coord)

  /** A visited-list entry as the client reads it: the visit's `locationId`
      and its own `id`, either of which may be missing from the JSON. */
  datatype VisitRow = VisitRow(locationId: Option<Id>, id: Option<Id>)

  /** The user record kept in the app's state and storage.  `totalPoints`
      is missing from the record a registration answers with. */
  datatype AppUser = AppUser(id: Id, email: string, firstName: string, totalPoints: Option<int>)

  /** The outcome of an axios call: a 2xx body, an error response with its
      status, or no response at all. */
  datatype Reply<T> = Ok(body: T) | HttpError(status: int) | NetworkError

  /** Observable side effects of a proximity scan, in order. */
  datatype Effect =
    | Notify(locationId: Id, name: string)     // scheduleNotificationAsync "Odkryłeś: <name>"
    | CheckInCall(locationId: Id)             // getLocationById(id), i.e. GET /locations/:id

  /** The discovery radius in meters; a location is in range when its
      distance is strictly below it. */
  const ProximityRadius: real := 50.0

  /** JavaScript truthiness of a possibly-missing string. */
  predicate Truthy(s: Option<string>) {
    s.Some? && s.value != ""
  }

  /** A read of stored items: the value under `key`, or None for `null`. */
  function Lookup(items: map<string, string>, key: string): Option<string> {
    if key in items then Some(items[key]) else None
  }

  /** A stored item tests truthy exactly when it is present and not the
      empty string: `null` and `""` both read as "not logged in". */
  lemma TruthyStoredItem(items: map<string, string>, key: string)
    ensures Truthy(Lookup(items, key)) <==> key in items && items[key] != ""
    ensures !Truthy(None) && !Truthy(Some(""))
  {
  }

  const TokenKey := "token"
  const UserKey := "user"

  /** expo-secure-store: string values under string keys. */
  class SecureStore {
    var items: map<string, string>

    constructor (items: map<string, string>)
      ensures this.items == items
    {
      this.items := items;
    }

    /** `getItemAsync(key)`, None for `null`. */
    function GetItem(key: string): (r: Option<string>)
      reads this
      ensures r.Some? <==> key in items
      ensures r.Some? ==> r.value == items[key]
    {
      Lookup(items, key)
    }

    method SetItem(key: string, value: string)
      modifies this
      ensures items == old(items)[key := value]
    {
      items := items[key := value];
    }

    method DeleteItem(key: string)
      modifies this
      ensures items == old(items) - {key}
    {
      items := items - {key};
    }
  }
}
