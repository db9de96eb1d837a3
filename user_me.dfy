/**
 * `GET /api/user/me`: the signed-in user's record, looked up by the internal
 * id in the X-User-ID header. The handler only reads.
 */
module UserMe {
  import opened Wrappers
  import opened Store
  import opened Http
  import Users

  /** The `data` of a 200 reply: the selected columns, the balance renamed and the recharge flag inverted. */
  datatype MeData = MeData(
    id: string,
    email: string,
    name: Option<string>,
    image: Option<string>,
    apiKey: string,
    creditsRemaining: int,
    creditsUsed: int,
    canRecharge: bool)

  /**
   * The handler. It takes the user table only, so it cannot write; `fault`
   * stands for the lookup failing, which is answered with 500 and no error
   * text.
   */
  function Get(users: seq<User>, h: Headers, fault: bool): (r: Reply<MeData>)
    ensures r.status in {200, 401, 404, 500}
    ensures r.status != 200 ==> r.data.None? && !r.detail
    ensures r.status == 401 <==> !Present(h.xUserId)
    ensures r.status == 500 <==> Present(h.xUserId) && fault
    ensures r.status == 404 <==> Present(h.xUserId) && !fault && !HasUser(users, h.xUserId.value)
    ensures r.status == 200 ==> exists k | 0 <= k < |users| ::
      var u := users[k];
      && u.id == h.xUserId.value
      && r.data == Some(MeData(u.id, u.email, u.name, u.image, u.apiKey, u.credits, u.creditsUsed, !u.recharged))
  {
    if !Present(h.xUserId) then Status(401)
    else if fault then Status(500)
    else match FindUser(users, Id, h.xUserId.value)
      case None => Status(404)
      case Some(k) =>
        var u := users[k];
        Reply(200, Some(MeData(u.id, u.email, u.name, u.image, u.apiKey, u.credits, u.creditsUsed, !u.recharged)), false)
  }

  /**
   * On a well-formed table this handler and `getUserByGoogleId` describe a
   * user the same way: same id and key, same balance, same `canRecharge`.
   */
  lemma AgreesWithLookup(users: seq<User>, k: nat, h: Headers)
    requires UniqueUsers(users) && k < |users|
    requires h.xUserId == Some(users[k].id) && users[k].id != ""
    ensures
      var me := Get(users, h, false).data;
      var client := Users.GetUserByGoogleId(users, users[k].googleId);
      && me.Some? && client.Some?
      && me.value.id == client.value.id
      && me.value.apiKey == client.value.apiKey
      && me.value.creditsRemaining == client.value.creditsRemaining
      && me.value.creditsUsed == client.value.creditsUsed
      && me.value.canRecharge == client.value.canRecharge
  {
    FindUserIsTheRow(users, Id, k);
    Users.GetUserByGoogleIdIsTheRow(users, k);
  }
}
