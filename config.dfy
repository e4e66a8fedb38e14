/** `_env_or_config` and `load_jira_config`: where each setting comes from
    and which missing settings are configuration errors. The environment and
    the `[jira]` section of the config file are explicit maps. */
module Config {
  import opened Types
  import opened Text

  /** `JiraConfig`. */
  datatype JiraConfig = JiraConfig(baseUrl: string, email: string, apiToken: string,
                                   worklogUser: string, apiVersion: string)

  /** The configuration problems the command reports before any request. */
  datatype ConfigError =
    | MissingBaseUrl
    | MissingEmail
    | MissingApiToken
    | MissingWorklogUser
    | UnreadableConfigFile(reason: string)   // file not found, or no [jira] section
    | BadDate(argument: string)              // a date argument not in YYYY-MM-DD form
    | StartAfterEnd
    | NoIssueKeys

  /** An environment value counts when it is not blank. */
  predicate EnvSet(env: map<string, string>, name: string)
  {
    name in env && Strip(env[name]) != ""
  }

  /** A config value counts when it is not empty. */
  predicate ConfigSet(config: map<string, string>, key: string)
  {
    key in config && config[key] != ""
  }

  /** `_env_or_config`: a non-blank environment value, stripped, wins; then a
      non-empty config value as written; then the default. */
  function EnvOrConfig(env: map<string, string>, envName: string, config: map<string, string>,
                       configKey: string, default: Option<string>): (r: Option<string>)
    ensures EnvSet(env, envName) ==> r == Some(Strip(env[envName]))
    ensures !EnvSet(env, envName) && ConfigSet(config, configKey) ==> r == Some(config[configKey])
    ensures !EnvSet(env, envName) && !ConfigSet(config, configKey) ==> r == default
    ensures r == default || (r.Some? && r.value != "")
  {
    if envName in env && Strip(env[envName]) != "" then Some(Strip(env[envName]))
    else if configKey in config && config[configKey] != "" then Some(config[configKey])
    else default
  }

  /** The setting is given by the environment or by the config file. */
  predicate Given(env: map<string, string>, envName: string, config: map<string, string>, configKey: string)
  {
    EnvSet(env, envName) || ConfigSet(config, configKey)
  }

  /** `load_jira_config` once the config file has been read into `config`
      (an empty map when no file was given). The worklog user always exists,
      so the only errors are the three required settings. */
  function LoadJiraConfig(env: map<string, string>, config: map<string, string>): (r: Result<JiraConfig, ConfigError>)
    ensures r.Err? ==> r.error == MissingBaseUrl || r.error == MissingEmail || r.error == MissingApiToken
    ensures r.Ok? ==> r.value.email != "" && r.value.apiToken != "" && r.value.worklogUser != ""
                      && r.value.apiVersion != ""
                      && (r.value.baseUrl == [] || r.value.baseUrl[|r.value.baseUrl| - 1] != '/')
    ensures r.Ok? ==> var baseUrl := EnvOrConfig(env, "JIRA_BASE_URL", config, "base_url", None);
                      baseUrl.Some? && r.value.baseUrl == RStrip(baseUrl.value, IsSlash)
    ensures r.Ok? ==> EnvOrConfig(env, "JIRA_EMAIL", config, "email", None) == Some(r.value.email)
                      && EnvOrConfig(env, "JIRA_API_TOKEN", config, "api_token", None) == Some(r.value.apiToken)
    ensures r.Ok? ==> EnvOrConfig(env, "JIRA_WORKLOG_USER", config, "worklog_user", Some(r.value.email))
                      == Some(r.value.worklogUser)
    ensures r.Ok? ==> EnvOrConfig(env, "JIRA_API_VERSION", config, "api_version", Some("3")) == Some(r.value.apiVersion)
  {
    var baseUrl := EnvOrConfig(env, "JIRA_BASE_URL", config, "base_url", None);
    var email := EnvOrConfig(env, "JIRA_EMAIL", config, "email", None);
    var apiToken := EnvOrConfig(env, "JIRA_API_TOKEN", config, "api_token", None);
    var apiVersion := EnvOrConfig(env, "JIRA_API_VERSION", config, "api_version", Some("3"));
    if !Filled(baseUrl) then Err(MissingBaseUrl)
    else if !Filled(email) then Err(MissingEmail)
    else if !Filled(apiToken) then Err(MissingApiToken)
    else
      var worklogUser := EnvOrConfig(env, "JIRA_WORKLOG_USER", config, "worklog_user", email);
      if !Filled(worklogUser) then Err(MissingWorklogUser)
      else Ok(JiraConfig(RStrip(baseUrl.value, IsSlash), email.value, apiToken.value,
                         worklogUser.value, apiVersion.value))
  }

  /** Base URL, email and API token are required, and checked in that order. */
  lemma RequiredSettings(env: map<string, string>, config: map<string, string>)
    ensures var r := LoadJiraConfig(env, config);
            && (!Given(env, "JIRA_BASE_URL", config, "base_url") ==> r == Err(MissingBaseUrl))
            && (Given(env, "JIRA_BASE_URL", config, "base_url") && !Given(env, "JIRA_EMAIL", config, "email")
                ==> r == Err(MissingEmail))
            && (Given(env, "JIRA_BASE_URL", config, "base_url") && Given(env, "JIRA_EMAIL", config, "email")
                && !Given(env, "JIRA_API_TOKEN", config, "api_token")
                ==> r == Err(MissingApiToken))
            && (r.Ok? <==> Given(env, "JIRA_BASE_URL", config, "base_url") && Given(env, "JIRA_EMAIL", config, "email")
                           && Given(env, "JIRA_API_TOKEN", config, "api_token"))
  {
    RequiredIffGiven(env, "JIRA_BASE_URL", config, "base_url");
    RequiredIffGiven(env, "JIRA_EMAIL", config, "email");
    RequiredIffGiven(env, "JIRA_API_TOKEN", config, "api_token");
    var email := EnvOrConfig(env, "JIRA_EMAIL", config, "email", None);
    assert Filled(email) ==> Filled(EnvOrConfig(env, "JIRA_WORKLOG_USER", config, "worklog_user", email));
  }

  /** A setting without a default is truthy exactly when it is given. */
  lemma RequiredIffGiven(env: map<string, string>, envName: string, config: map<string, string>, configKey: string)
    ensures Filled(EnvOrConfig(env, envName, config, configKey, None)) <==> Given(env, envName, config, configKey)
  {
    if EnvSet(env, envName) {
      assert Strip(env[envName]) != "";
    }
  }

  /** Without `JIRA_WORKLOG_USER` or `worklog_user`, the worklog user is the
      authenticating email. */
  lemma WorklogUserDefaultsToEmail(env: map<string, string>, config: map<string, string>)
    requires LoadJiraConfig(env, config).Ok?
    requires !EnvSet(env, "JIRA_WORKLOG_USER") && !ConfigSet(config, "worklog_user")
    ensures LoadJiraConfig(env, config).value.worklogUser == LoadJiraConfig(env, config).value.email
  {
  }

  /** Without `JIRA_API_VERSION` or `api_version`, the API version is "3". */
  lemma ApiVersionDefaultsTo3(env: map<string, string>, config: map<string, string>)
    requires LoadJiraConfig(env, config).Ok?
    requires !EnvSet(env, "JIRA_API_VERSION") && !ConfigSet(config, "api_version")
    ensures LoadJiraConfig(env, config).value.apiVersion == "3"
  {
  }

  /** A non-blank environment value overrides the config file, stripped. */
  lemma EnvironmentWins(env: map<string, string>, config: map<string, string>)
    requires LoadJiraConfig(env, config).Ok?
    requires EnvSet(env, "JIRA_EMAIL")
    ensures LoadJiraConfig(env, config).value.email == Strip(env["JIRA_EMAIL"])
  {
    var email := EnvOrConfig(env, "JIRA_EMAIL", config, "email", None);
    assert email == Some(Strip(env["JIRA_EMAIL"]));
  }

  /** `rstrip("/")` removes every trailing slash and nothing else. */
  lemma BaseUrlTrailingSlashes(url: string, slashes: nat)
    requires url == [] || url[|url| - 1] != '/'
    ensures RStrip(url + seq(slashes, _ => '/'), IsSlash) == url
  {
    var s := url + seq(slashes, _ => '/');
    var r := RStrip(s, IsSlash);
    assert s[..|url|] == url;
  }

  /** The config file of the exporter's own test, with the environment
      empty: the trailing slash of `base_url` is removed and every other value
      is taken as written. */
  lemma ConfigFileExample(config: map<string, string>)
    requires config == map["base_url" := "https://example.atlassian.net/",
                           "email" := "config@example.com",
                           "api_token" := "token123",
                           "worklog_user" := "abc123",
                           "api_version" := "2"]
    ensures LoadJiraConfig(map[], config)
            == Ok(JiraConfig("https://example.atlassian.net", "config@example.com", "token123",
                             "abc123", "2"))
  {
    var env: map<string, string> := map[];
    assert EnvOrConfig(env, "JIRA_BASE_URL", config, "base_url", None) == Some("https://example.atlassian.net/");
    assert EnvOrConfig(env, "JIRA_EMAIL", config, "email", None) == Some("config@example.com");
    assert EnvOrConfig(env, "JIRA_API_TOKEN", config, "api_token", None) == Some("token123");
    assert EnvOrConfig(env, "JIRA_API_VERSION", config, "api_version", Some("3")) == Some("2");
    assert EnvOrConfig(env, "JIRA_WORKLOG_USER", config, "worklog_user", Some("config@example.com")) == Some("abc123");
    BaseUrlTrailingSlashes("https://example.atlassian.net", 1);
    assert "https://example.atlassian.net" + seq(1, _ => '/') == "https://example.atlassian.net/";
  }
}
