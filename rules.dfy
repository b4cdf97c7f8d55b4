/**
 * The signature catalogue: a constant, ordered table of failure signatures.
 * A lower priority number means a more urgent or more likely cause.
 */
module Rules {

  import opened Patterns

  datatype Severity = P0 | P1 | P2
  {
    /** The label a report prints for the severity. */
    function Label(): (s: string)
      ensures |s| == 2 && s[0] == 'P'
    {
      match this
      case P0 => "P0"
      case P1 => "P1"
      case P2 => "P2"
    }
  }

  datatype Rule = Rule(
    id: string,
    priority: int,
    severity: Severity,
    pattern: Pattern,
    cause: string,
    verify: seq<string>,
    fix: seq<string>)

  /** The catalogue, in declaration order. */
  const RULES: seq<Rule> := [
    Rule("NGINX_UPSTREAM_SELINUX", 10, P0,
      Pattern([["connect() ", " failed (13: Permission denied)"]]),
      "Nginx 反代被 SELinux 拦截（httpd_t 默认禁止主动网络连接）",
      ["getenforce", "tail -n 50 /var/log/nginx/error.log"],
      ["setsebool -P httpd_can_network_connect 1", "systemctl restart nginx"]),
    Rule("NGINX_UPSTREAM_REFUSED", 30, P1,
      Pattern([["connect() failed (111: Connection refused)"]]),
      "上游端口拒绝：上游服务未监听/宕机/端口不对",
      ["curl -I http://<upstream>:8080/", "ss -lntp | grep 8080"],
      ["确认 Tomcat/应用监听 8080", "检查防火墙/安全组放行 8080"]),
    Rule("NGINX_UPSTREAM_TIMEOUT", 40, P1,
      Pattern([["upstream timed out"], ["Connection timed out"]]),
      "上游超时：网络不通/防火墙丢包/上游卡死",
      ["ping <upstream>", "curl -I http://<upstream>:8080/", "firewall-cmd --list-all"],
      ["放行端口/检查路由", "排查上游服务性能/卡死"]),
    Rule("NGINX_DNS_FAIL", 50, P2,
      Pattern([["host not found in upstream"]]),
      "上游域名解析失败：DNS/hosts 配置问题",
      ["getent hosts node2.itcast.cn", "cat /etc/resolv.conf"],
      ["修复 /etc/hosts 或 DNS", "改用上游 IP 进行验证"]),
    Rule("TOMCAT_DB_ACCESS_DENIED", 20, P0,
      Pattern([["Access denied for user ", "@'localhost'"], ["CannotGetJdbcConnectionException"]]),
      "应用启动失败：数据库认证/账号密码错误导致连接池初始化失败",
      ["tail -n 200 catalina.out", "/opt/mysql/bin/mysql -uroot -p --socket=/tmp/mysql.sock"],
      ["修正 application.yml 数据库账号密码", "建议创建业务账号替代 root"]),
    Rule("TOMCAT_DEPLOY_FAIL", 60, P2,
      Pattern([["Error deploying web application archive"], ["LifecycleException"]]),
      "WAR 部署/启动失败（常由依赖或数据库连接导致）",
      ["tail -n 200 catalina.out", "ls -l webapps/"],
      ["结合上面的具体异常先修根因，再重启 Tomcat"]),
    Rule("MYSQL_LIBNCURSES_MISSING", 25, P0,
      Pattern([["libncurses.so.5", "cannot open shared object file"]]),
      "MySQL 客户端依赖缺失（CentOS 9 常见：libncurses.so.5）",
      ["ldd /opt/mysql/bin/mysql | grep ncurses", "dnf provides '*/libncurses.so.5'"],
      ["启用 epel/crb 后安装 ncurses-compat-libs"])
  ]

  /** No two rules share an identifier. */
  predicate UniqueIds(rules: seq<Rule>)
  {
    forall i, j :: 0 <= i < j < |rules| ==> rules[i].id != rules[j].id
  }

  /** The position of the first rule with identifier `id`, or `|rules|` when there is none. */
  function IndexOf(rules: seq<Rule>, id: string): (k: nat)
    ensures k <= |rules|
    ensures k < |rules| ==> rules[k].id == id
    ensures forall j :: 0 <= j < k ==> rules[j].id != id
    decreases |rules|
  {
    if rules == [] then 0
    else if rules[0].id == id then 0
    else 1 + IndexOf(rules[1..], id)
  }

  /** With unique identifiers, a rule's identifier leads back to that rule. */
  lemma IndexOfId(rules: seq<Rule>, k: nat)
    requires UniqueIds(rules) && k < |rules|
    ensures IndexOf(rules, rules[k].id) == k
  {
  }

  /** The catalogue's identifiers are unique and every pattern is well formed. */
  lemma CatalogueValid()
    ensures |RULES| == 7
    ensures UniqueIds(RULES)
    ensures forall i :: 0 <= i < |RULES| ==> WellFormed(RULES[i].pattern)
  {
  }

  /** The SELinux signature is the single most urgent one of the catalogue. */
  lemma SelinuxMostUrgent()
    ensures RULES[0].id == "NGINX_UPSTREAM_SELINUX" && RULES[0].priority == 10
    ensures forall i :: 0 < i < |RULES| ==> RULES[0].priority < RULES[i].priority
  {
  }
}
