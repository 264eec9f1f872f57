/**
 The five registries of the gateway, as the init functions fill them: no dispatch
 on any of them depends on the iteration order of its map.
 */
module RouteTables {
  import opened RouteRegistry

  /** Plain rows, of which the two-segment ones all have the method `verb` and end
      in x, y or z, while no one-segment row of that method is x, y or z. */
  predicate Clear(table: Table, verb: Verb, x: string, y: string, z: string) {
    table.Row? ==>
      && Plain(table.path)
      && (table.path.Two? ==> table.verb == verb && (table.path.last == x || table.path.last == y || table.path.last == z))
      && (table.path.One? && table.verb == verb ==> table.path.last != x && table.path.last != y && table.path.last != z)
      && Clear(table.rest, verb, x, y, z)
  }

  /** Plain rows of one segment only. */
  predicate AllOne(table: Table) {
    table.Row? ==> table.path.One? && Plain(table.path) && AllOne(table.rest)
  }

  /** Plain rows of two segments only. */
  predicate AllTwo(table: Table) {
    table.Row? ==> table.path.Two? && Plain(table.path) && AllTwo(table.rest)
  }

  lemma {:induction false} AllPlainRows(table: Table, verb: Verb, x: string, y: string, z: string)
    requires AllOne(table) || AllTwo(table) || Clear(table, verb, x, y, z)
    ensures AllPlain(table)
  {
    if table.Row? { AllPlainRows(table.rest, verb, x, y, z); }
  }

  lemma {:induction false} NoRowsClash(table: Table, verb: Verb, x: string, y: string, z: string, a: string, b: string, v: Verb)
    requires AllOne(table) || AllTwo(table) || Clear(table, verb, x, y, z)
    ensures AllOne(table) ==> !HasRow(table, Two(a, b), v)
    ensures AllTwo(table) ==> !HasRow(table, One(b), v)
    ensures Clear(table, verb, x, y, z) && HasRow(table, Two(a, b), v) ==> v == verb && (b == x || b == y || b == z)
    ensures Clear(table, verb, x, y, z) && HasRow(table, One(b), v) ==> v != verb || (b != x && b != y && b != z)
  {
    if table.Row? { NoRowsClash(table.rest, verb, x, y, z, a, b, v); }
  }

  /** Each of the three shapes makes a registry free of comparable suffixes. */
  lemma ShapesAreSuffixFree(table: Table, verb: Verb, x: string, y: string, z: string)
    requires AllOne(table) || AllTwo(table) || Clear(table, verb, x, y, z)
    ensures AllPlain(table) && NoClash(table) && SuffixFree(Build(table, 0))
  {
    AllPlainRows(table, verb, x, y, z);
    forall a, b, v ensures HasRow(table, Two(a, b), v) ==> !HasRow(table, One(b), v) {
      NoRowsClash(table, verb, x, y, z, a, b, v);
    }
    TableIsSuffixFree(table);
  }

  // ---------- one row at a time ----------

  function OneRow(a: string, verb: Verb, rest: Table): (t: Table)
    requires NoSlash(a) && AllOne(rest)
    ensures AllOne(t)
  {
    Row(One(a), verb, rest)
  }

  function TwoRow(a: string, b: string, verb: Verb, rest: Table): (t: Table)
    requires NoSlash(a) && NoSlash(b) && AllTwo(rest)
    ensures AllTwo(t)
  {
    Row(Two(a, b), verb, rest)
  }

  predicate BalanceShape(table: Table) {
    Clear(table, POST, "create", "update", "delete")
  }

  function BalanceOne(a: string, verb: Verb, rest: Table): (t: Table)
    requires NoSlash(a) && BalanceShape(rest)
    requires verb == POST ==> a != "create" && a != "update" && a != "delete"
    ensures BalanceShape(t)
  {
    Row(One(a), verb, rest)
  }

  function BalanceTwo(a: string, b: string, verb: Verb, rest: Table): (t: Table)
    requires NoSlash(a) && NoSlash(b) && BalanceShape(rest)
    requires verb == POST && (b == "create" || b == "update" || b == "delete")
    ensures BalanceShape(t)
  {
    Row(Two(a, b), verb, rest)
  }

  predicate GameShape(table: Table) {
    Clear(table, GET, "list", "list", "list")
  }

  function GameOne(a: string, verb: Verb, rest: Table): (t: Table)
    requires NoSlash(a) && GameShape(rest)
    requires verb == GET ==> a != "list"
    ensures GameShape(t)
  {
    Row(One(a), verb, rest)
  }

  function GameTwo(a: string, b: string, verb: Verb, rest: Table): (t: Table)
    requires NoSlash(a) && NoSlash(b) && GameShape(rest)
    requires verb == GET && b == "list"
    ensures GameShape(t)
  {
    Row(Two(a, b), verb, rest)
  }

  // ---------- the tables, in groups of rows ----------

  function BackendRows1(rest: Table): (t: Table)
    requires AllOne(rest)
    ensures AllOne(t)
  {
    OneRow("login", POST,
    OneRow("refresh-token", GET,
    OneRow("get-info", GET,
    OneRow("menus", GET,
    OneRow("admins", GET,
    OneRow("create-admin", POST,
    OneRow("update-admin", POST,
    OneRow("generate-google2fa", GET,
    OneRow("bind-google2fa", POST,
    OneRow("delete-admin", POST,
    OneRow("logout", POST,
    OneRow("change-password", POST,
    rest))))))))))))
  }

  function BackendRows2(rest: Table): (t: Table)
    requires AllOne(rest)
    ensures AllOne(t)
  {
    OneRow("basic-setting", GET,
    OneRow("update-basic-setting", POST,
    OneRow("site-activity-list", GET,
    OneRow("site-activity-params", GET,
    OneRow("update-site-activity", POST,
    OneRow("roles", GET,
    OneRow("create-role", POST,
    OneRow("update-role", POST,
    OneRow("delete-role", POST,
    OneRow("permissions", GET,
    OneRow("save-permission", POST,
    OneRow("admin-logs", GET,
    rest))))))))))))
  }

  function BackendRows3(rest: Table): (t: Table)
    requires AllOne(rest)
    ensures AllOne(t)
  {
    OneRow("users", GET,
    OneRow("update-user", POST,
    OneRow("user-basic-info", GET,
    OneRow("user-grades", GET,
    OneRow("save-user-grades", POST,
    OneRow("delete-user-grades", POST,
    OneRow("user-login-logs", GET,
    OneRow("upload-image", POST,
    OneRow("messages", GET,
    OneRow("create-message", POST,
    OneRow("update-message", POST,
    OneRow("delete-message", POST,
    rest))))))))))))
  }

  function BackendRows4(rest: Table): (t: Table)
    requires AllOne(rest)
    ensures AllOne(t)
  {
    OneRow("user-messages", GET,
    OneRow("unread-count", GET,
    OneRow("read-message", POST,
    OneRow("ads", GET,
    OneRow("create-ad", POST,
    OneRow("update-ad", POST,
    OneRow("delete-ad", POST,
    OneRow("agents", GET,
    OneRow("create-agent", POST,
    OneRow("update-agent", POST,
    OneRow("delete-agent", POST,
    OneRow("agent-domains", GET,
    rest))))))))))))
  }

  function BackendRows5(rest: Table): (t: Table)
    requires AllOne(rest)
    ensures AllOne(t)
  {
    OneRow("create-agent-domain", POST,
    OneRow("update-agent-domain", POST,
    OneRow("delete-agent-domain", POST,
    OneRow("options-agent", GET,
    OneRow("agent-settlement-daily", GET,
    OneRow("calc-agent-settlement-daily", POST,
    OneRow("settle-agent-settlement-daily", POST,
    OneRow("settle-agent-settlement-batch", POST,
    OneRow("notices", GET,
    OneRow("create-notice", POST,
    OneRow("update-notice", POST,
    OneRow("delete-notice", POST,
    rest))))))))))))
  }

  function BackendRows6(rest: Table): (t: Table)
    requires AllOne(rest)
    ensures AllOne(t)
  {
    OneRow("options-user-grade", GET,
    OneRow("options-admin-role", GET,
    rest))
  }

  function BackendTable(): (t: Table)
    ensures AllOne(t)
  {
    BackendRows1(BackendRows2(BackendRows3(BackendRows4(BackendRows5(BackendRows6(End))))))
  }

  function BalanceRows1(rest: Table): (t: Table)
    requires BalanceShape(rest)
    ensures BalanceShape(t)
  {
    BalanceOne("refresh-balance", GET,
    BalanceOne("payment-list", GET,
    BalanceOne("withdraw-list", GET,
    BalanceOne("add-bank-card", POST,
    BalanceOne("bank-card-list", GET,
    BalanceOne("delete-bank-card", POST,
    BalanceOne("set-default-bank-card", POST,
    BalanceOne("deposit-nonce", GET,
    BalanceOne("withdraw-nonce", GET,
    BalanceOne("deposit-order", POST,
    rest))))))))))
  }

  function BalanceRows2(rest: Table): (t: Table)
    requires BalanceShape(rest)
    ensures BalanceShape(t)
  {
    BalanceOne("balance-log", GET,
    BalanceOne("my-flow-requirements", GET,
    BalanceOne("deposit-callback", POST,
    BalanceOne("withdraw", POST,
    BalanceOne("vip-upgrade-progress", GET,
    BalanceOne("signin-activity-info", GET,
    BalanceOne("signin-claim", POST,
    BalanceOne("lucky-spin-info", GET,
    BalanceOne("lucky-spin", POST,
    BalanceOne("lucky-spin-records", GET,
    rest))))))))))
  }

  function BalanceRows3(rest: Table): (t: Table)
    requires BalanceShape(rest)
    ensures BalanceShape(t)
  {
    BalanceOne("lucky-spin-recent-winners", GET,
    BalanceOne("deposit-bonus-recent-winners", GET,
    BalanceOne("register-bonus-recent-winners", GET,
    BalanceOne("wash-code-rebate", POST,
    BalanceOne("balance-changes", GET,
    BalanceOne("lucky-bonus-records", GET,
    BalanceOne("deposit-bonus-records", GET,
    BalanceOne("register-bonus-records", GET,
    BalanceOne("invite-bonus-records", GET,
    BalanceOne("signin-bonus-records", GET,
    rest))))))))))
  }

  function BalanceRows4(rest: Table): (t: Table)
    requires BalanceShape(rest)
    ensures BalanceShape(t)
  {
    BalanceOne("options-change", GET,
    BalanceOne("recharge-payment", GET,
    BalanceOne("recharge-manual", GET,
    BalanceOne("confirm-payment-order", POST,
    BalanceOne("withdraws", GET,
    BalanceOne("withdraw-manual", GET,
    BalanceOne("withdraw-review", GET,
    BalanceOne("deal-with-withdraw", POST,
    BalanceOne("query-user-balance", POST,
    BalanceOne("query-game-balance", POST,
    rest))))))))))
  }

  function BalanceRows5(rest: Table): (t: Table)
    requires BalanceShape(rest)
    ensures BalanceShape(t)
  {
    BalanceOne("manual-user-balance", POST,
    BalanceOne("options-manual", GET,
    BalanceOne("site-payments", GET,
    BalanceOne("update-site-payment", POST,
    BalanceOne("site-withdraws", GET,
    BalanceOne("update-site-withdraw", POST,
    BalanceOne("flow-options", GET,
    BalanceOne("flow-rules", GET,
    BalanceOne("flow-rule", GET,
    BalanceTwo("flow-rule", "create", POST,
    rest))))))))))
  }

  function BalanceRows6(rest: Table): (t: Table)
    requires BalanceShape(rest)
    ensures BalanceShape(t)
  {
    BalanceTwo("flow-rule", "update", POST,
    BalanceTwo("flow-rule", "delete", POST,
    BalanceOne("flow-requirements", GET,
    BalanceTwo("flow-requirement", "update", POST,
    rest))))
  }

  function BalanceTable(): (t: Table)
    ensures BalanceShape(t)
  {
    BalanceRows1(BalanceRows2(BalanceRows3(BalanceRows4(BalanceRows5(BalanceRows6(End))))))
  }

  function GameRows1(rest: Table): (t: Table)
    requires GameShape(rest)
    ensures GameShape(t)
  {
    GameOne("games", GET,
    GameOne("update-games", POST,
    GameOne("game-record", POST,
    GameOne("redirect-to-game", POST,
    GameOne("game-categories", GET,
    GameOne("frontend-game-list", GET,
    GameTwo("game", "list", GET,
    GameOne("favorite-toggle", POST,
    GameOne("favorite-list", GET,
    GameOne("backend-game-list", GET,
    GameOne("update-game-list-item", POST,
    GameOne("game-platforms", GET,
    GameOne("recall-balance", POST,
    GameOne("bet-history", GET,
    GameOne("wash-code-quota", GET,
    rest)))))))))))))))
  }

  function GameTable(): (t: Table)
    ensures GameShape(t)
  {
    GameRows1(End)
  }

  function ManageRows1(rest: Table): (t: Table)
    requires AllTwo(rest)
    ensures AllTwo(t)
  {
    TwoRow("admin", "login", POST,
    TwoRow("admin", "refresh-token", GET,
    TwoRow("admin", "get-info", GET,
    TwoRow("admin", "logout", POST,
    TwoRow("admin", "menus", GET,
    TwoRow("admin", "list", GET,
    TwoRow("admin", "create", POST,
    TwoRow("admin", "update", POST,
    TwoRow("admin", "delete", POST,
    TwoRow("admin", "role-options", GET,
    rest))))))))))
  }

  function ManageRows2(rest: Table): (t: Table)
    requires AllTwo(rest)
    ensures AllTwo(t)
  {
    TwoRow("admin", "generate-google2fa", POST,
    TwoRow("admin", "bind-google2fa", POST,
    TwoRow("role", "list", GET,
    TwoRow("role", "create", POST,
    TwoRow("role", "update", POST,
    TwoRow("role", "delete", POST,
    TwoRow("customer", "list", GET,
    TwoRow("customer", "detail", GET,
    TwoRow("customer", "update", POST,
    TwoRow("customer", "delete", POST,
    rest))))))))))
  }

  function ManageRows3(rest: Table): (t: Table)
    requires AllTwo(rest)
    ensures AllTwo(t)
  {
    TwoRow("customer", "sync", POST,
    TwoRow("customer", "publish", POST,
    TwoRow("customer", "rollback", POST,
    TwoRow("customer", "version-history", GET,
    TwoRow("game", "list", GET,
    TwoRow("game", "detail", GET,
    TwoRow("game", "create", POST,
    TwoRow("game", "update", POST,
    TwoRow("game", "delete", POST,
    TwoRow("game", "supplement-bet-records", POST,
    rest))))))))))
  }

  function ManageRows4(rest: Table): (t: Table)
    requires AllTwo(rest)
    ensures AllTwo(t)
  {
    TwoRow("game", "sync-tasks", GET,
    TwoRow("activity", "list", GET,
    TwoRow("activity", "detail", GET,
    TwoRow("activity", "create", POST,
    TwoRow("activity", "update", POST,
    TwoRow("activity", "delete", POST,
    TwoRow("payment", "list", GET,
    TwoRow("payment", "detail", GET,
    TwoRow("payment", "create", POST,
    TwoRow("payment", "update", POST,
    rest))))))))))
  }

  function ManageRows5(rest: Table): (t: Table)
    requires AllTwo(rest)
    ensures AllTwo(t)
  {
    TwoRow("payment", "delete", POST,
    TwoRow("withdraw", "list", GET,
    TwoRow("withdraw", "detail", GET,
    TwoRow("withdraw", "create", POST,
    TwoRow("withdraw", "update", POST,
    TwoRow("withdraw", "delete", POST,
    TwoRow("site_game", "list", GET,
    TwoRow("site_game", "update_status", POST,
    TwoRow("site_game", "bind", POST,
    TwoRow("site_game", "unbind", POST,
    rest))))))))))
  }

  function ManageRows6(rest: Table): (t: Table)
    requires AllTwo(rest)
    ensures AllTwo(t)
  {
    TwoRow("site_payment", "list", GET,
    TwoRow("site_payment", "update_status", POST,
    TwoRow("site_payment", "bind", POST,
    TwoRow("site_payment", "unbind", POST,
    TwoRow("site_activity", "list", GET,
    TwoRow("site_activity", "update_status", POST,
    TwoRow("site_activity", "bind", POST,
    TwoRow("site_activity", "unbind", POST,
    TwoRow("site_withdraw", "list", GET,
    TwoRow("site_withdraw", "update_status", POST,
    rest))))))))))
  }

  function ManageRows7(rest: Table): (t: Table)
    requires AllTwo(rest)
    ensures AllTwo(t)
  {
    TwoRow("site_withdraw", "bind", POST,
    TwoRow("site_withdraw", "unbind", POST,
    TwoRow("options", "domain-type", GET,
    TwoRow("options", "site", GET,
    TwoRow("site-domain", "list", GET,
    TwoRow("site-domain", "create", POST,
    TwoRow("site-domain", "update", POST,
    TwoRow("site-domain", "delete", POST,
    rest))))))))
  }

  function ManageTable(): (t: Table)
    ensures AllTwo(t)
  {
    ManageRows1(ManageRows2(ManageRows3(ManageRows4(ManageRows5(ManageRows6(ManageRows7(End)))))))
  }

  function FrontendRows1(rest: Table): (t: Table)
    requires AllOne(rest)
    ensures AllOne(t)
  {
    OneRow("register", POST,
    OneRow("login", POST,
    OneRow("captcha", GET,
    OneRow("refresh-token", POST,
    OneRow("user-info", GET,
    OneRow("logout", POST,
    OneRow("bind-email", POST,
    OneRow("bind-mobile", POST,
    OneRow("change-login-password", POST,
    OneRow("bind-login-password", POST,
    OneRow("grade-list", GET,
    OneRow("set-pay-password", POST,
    rest))))))))))))
  }

  function FrontendRows2(rest: Table): (t: Table)
    requires AllOne(rest)
    ensures AllOne(t)
  {
    OneRow("verify-pay-password", POST,
    OneRow("change-pay-password", POST,
    OneRow("invite-list", GET,
    OneRow("notice-list", GET,
    OneRow("ad-list", GET,
    OneRow("setting-site", GET,
    OneRow("site-activity-list", GET,
    OneRow("app-user-messages", GET,
    OneRow("app-unread-count", GET,
    OneRow("app-read-message", POST,
    rest))))))))))
  }

  function FrontendTable(): (t: Table)
    ensures AllOne(t)
  {
    FrontendRows1(FrontendRows2(End))
  }

  // ---------- at most one route fits any path, and every row is served ----------

  /** At most one route fits any path; each row is served under any front part of the
      path, in any iteration order, with the handler of the last such row. */
  ghost predicate Dispatches(table: Table) {
    && SuffixFree(Build(table, 0))
    && forall path, verb, front, order :: HasRow(table, path, verb) && IsOrderOf(order, Build(table, 0)) ==>
         Find(Build(table, 0), order, front + Suffix(path), verb) == LastRow(table, 0, path, verb)
  }

  lemma CleanTableDispatches(table: Table)
    requires AllPlain(table) && NoClash(table)
    ensures Dispatches(table)
  {
    TableIsSuffixFree(table);
    forall path, verb, front, order | HasRow(table, path, verb) && IsOrderOf(order, Build(table, 0))
      ensures Find(Build(table, 0), order, front + Suffix(path), verb) == LastRow(table, 0, path, verb)
    {
      RowIsServed(table, path, verb, front, order);
    }
  }

  lemma BackendDispatches()
    ensures Dispatches(BackendTable())
  {
    ShapesAreSuffixFree(BackendTable(), GET, "", "", "");
    CleanTableDispatches(BackendTable());
  }

  lemma BalanceDispatches()
    ensures Dispatches(BalanceTable())
  {
    ShapesAreSuffixFree(BalanceTable(), POST, "create", "update", "delete");
    CleanTableDispatches(BalanceTable());
  }

  lemma GameDispatches()
    ensures Dispatches(GameTable())
  {
    ShapesAreSuffixFree(GameTable(), GET, "list", "list", "list");
    CleanTableDispatches(GameTable());
  }

  lemma ManageDispatches()
    ensures Dispatches(ManageTable())
  {
    ShapesAreSuffixFree(ManageTable(), GET, "", "", "");
    CleanTableDispatches(ManageTable());
  }

  lemma FrontendDispatches()
    ensures Dispatches(FrontendTable())
  {
    ShapesAreSuffixFree(FrontendTable(), GET, "", "", "");
    CleanTableDispatches(FrontendTable());
  }
}
