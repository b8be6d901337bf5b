/**
 * IsOwnerOrReadOnly.has_object_permission of backend/core/permissions.py:
 * reads are open to everyone, writes only to the object's owner. The owner
 * is the object's `autor` when it has one, else its `utilizador`.
 */
module Permissions {
  import opened Wrappers
  import opened Models

  /** DRF's SAFE_METHODS. */
  const SafeMethods: set<string> := {"GET", "HEAD", "OPTIONS"}

  /**
   * The two owner attributes an object may carry; None stands both for an
   * attribute the object lacks and for an empty one. A user row is always
   * truthy, so only a missing `autor` falls through to `utilizador`.
   */
  datatype OwnedObject = OwnedObject(autor: Option<UserId>, utilizador: Option<UserId>)

  /** `getattr(obj, "autor", None) or getattr(obj, "utilizador", None)`. */
  function Owner(obj: OwnedObject): (o: Option<UserId>)
    ensures obj.autor.Some? ==> o == obj.autor
    ensures obj.autor.None? ==> o == obj.utilizador
    ensures o.None? <==> obj.autor.None? && obj.utilizador.None?
  {
    if obj.autor.Some? then obj.autor else obj.utilizador
  }

  /**
   * The permission for one object. `requester` is None for an anonymous
   * request: AnonymousUser equals neither a user row nor None.
   */
  function HasObjectPermission(verb: string, obj: OwnedObject, requester: Option<UserId>): (allowed: bool)
    ensures verb in {"GET", "HEAD", "OPTIONS"} ==> allowed
    ensures allowed && verb !in {"GET", "HEAD", "OPTIONS"} ==>
      requester.Some? && (requester == obj.autor || (obj.autor.None? && requester == obj.utilizador))
    ensures requester.Some? && requester == obj.autor ==> allowed
    ensures verb !in SafeMethods ==> (allowed <==> requester.Some? && requester == Owner(obj))
  {
    verb in SafeMethods || (requester.Some? && Owner(obj) == requester)
  }

  /** An object with neither owner attribute can only be read. */
  lemma OwnerlessDenied(verb: string, obj: OwnedObject, requester: Option<UserId>)
    requires obj.autor.None? && obj.utilizador.None?
    ensures HasObjectPermission(verb, obj, requester) <==> verb in SafeMethods
  {
  }

  /** An anonymous request may only read. */
  lemma AnonymousDenied(verb: string, obj: OwnedObject)
    ensures HasObjectPermission(verb, obj, None) <==> verb in SafeMethods
  {
  }

  /** When both attributes are set, `autor` decides and `utilizador` is ignored. */
  lemma AutorTakesPrecedence(verb: string, a: UserId, u: UserId, v: UserId, requester: Option<UserId>)
    ensures HasObjectPermission(verb, OwnedObject(Some(a), Some(u)), requester)
        == HasObjectPermission(verb, OwnedObject(Some(a), Some(v)), requester)
    ensures verb !in SafeMethods && a != u ==> !HasObjectPermission(verb, OwnedObject(Some(a), Some(u)), Some(u))
  {
  }
}
