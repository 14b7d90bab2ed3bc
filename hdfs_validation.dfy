/**
 * The HDFS configuration validator of the HDP 2.2 stack advisor: a rule
 * engine that reviews the DataNode settings of "hdfs-site" for a secure
 * (Kerberos) cluster and returns an ordered list of warning items, each
 * tied to one property key.
 *
 * `ValidationOutcome` is the reference definition: the three rule groups
 * (HTTP policy, address ports, data-transfer protection) as values,
 * concatenated. `ValidateHdfsConfigurations` is the validator as the
 * advisor runs it, building its list by appending, and is proved to
 * compute exactly `ValidationOutcome`.
 */
module HdfsValidation {
  import opened SiteProperties

  // Property keys read from hdfs-site.
  const DFS_ENCRYPT_DATA_TRANSFER := "dfs.encrypt.data.transfer"
  const DFS_HTTP_POLICY := "dfs.http.policy"
  const DFS_DATANODE_ADDRESS := "dfs.datanode.address"
  const DATANODE_HTTP_ADDRESS := "dfs.datanode.http.address"
  const DATANODE_HTTPS_ADDRESS := "dfs.datanode.https.address"
  const DATA_TRANSFER_PROTECTION := "dfs.data.transfer.protection"

  // Property keys read from core-site.
  const HADOOP_SECURITY_AUTHENTICATION := "hadoop.security.authentication"
  const HADOOP_SECURITY_AUTHORIZATION := "hadoop.security.authorization"

  // Values of dfs.http.policy.
  const HTTP_ONLY := "HTTP_ONLY"
  const HTTPS_ONLY := "HTTPS_ONLY"
  const HTTP_AND_HTTPS := "HTTP_AND_HTTPS"

  const VALID_HTTP_POLICY_VALUES: seq<string> := [HTTP_ONLY, HTTPS_ONLY, HTTP_AND_HTTPS]
  const VALID_TRANSFER_PROTECTION_VALUES: seq<string> := ["authentication", "integrity", "privacy"]

  /**
   * The warning texts, as tags. Each carries the configuration values its
   * message interpolates; key names and other constants are left out.
   */
  datatype Message =
    | InvalidHttpPolicy(policy: string)        // the policy is not a valid value
    | PrivilegedPortsUnderHttpsOnly(policy: string) // HTTPS_ONLY, yet a privileged port is used
    | NonPrivilegedPorts(policy: string)       // not HTTPS_ONLY, yet a port is not privileged
    | ProtectionNeedsHttpsOnly                 // protection set while the policy allows HTTP
    | InvalidProtection(protection: string)    // protection is not a valid value

  /** One entry of `validationItems`: `{"config-name": ..., "item": getWarnItem(...)}`. */
  datatype ValidationItem = ValidationItem(configName: string, message: Message)

  /**
   * What a call yields: the items, or the `KeyError` raised by an
   * unguarded core-site lookup.
   */
  datatype Outcome = Problems(items: seq<ValidationItem>) | KeyError(key: string)

  /** Wire encryption: dfs.encrypt.data.transfer is "true"; absent means off. */
  predicate WireEncryptionEnabled(hdfsSite: Namespace) {
    GetOrDefault(hdfsSite, DFS_ENCRYPT_DATA_TRANSFER, "false") == "true"
  }

  /** Kerberos authentication and service authorization are both switched on. */
  predicate SecurityActive(coreSite: Namespace) {
    && HADOOP_SECURITY_AUTHENTICATION in coreSite
    && coreSite[HADOOP_SECURITY_AUTHENTICATION] == "kerberos"
    && HADOOP_SECURITY_AUTHORIZATION in coreSite
    && coreSite[HADOOP_SECURITY_AUTHORIZATION] == "true"
  }

  /** The effective HTTP policy; HTTP_ONLY when the key is absent. */
  function HttpPolicy(hdfsSite: Namespace): string {
    GetOrDefault(hdfsSite, DFS_HTTP_POLICY, HTTP_ONLY)
  }

  /**
   * Whether the address under `key` uses a privileged port.
   * `isSecureAddress(a)` stands for the parent advisor's
   * `isSecurePort(getPort(a))`; an absent address is not privileged.
   */
  predicate Privileged(hdfsSite: Namespace, key: string, isSecureAddress: string -> bool) {
    key in hdfsSite && isSecureAddress(hdfsSite[key])
  }

  /** One item per property in `props`, all carrying `m`, in the order of `props`. */
  function WarningsFor(props: seq<string>, m: Message): (items: seq<ValidationItem>)
    ensures |items| == |props|
    ensures forall i :: 0 <= i < |props| ==> items[i] == ValidationItem(props[i], m)
  {
    seq(|props|, i requires 0 <= i < |props| => ValidationItem(props[i], m))
  }

  /** The warning on an HTTP policy outside the valid set. */
  function PolicyWarnings(policy: string): seq<ValidationItem> {
    if policy in VALID_HTTP_POLICY_VALUES then []
    else [ValidationItem(DFS_HTTP_POLICY, InvalidHttpPolicy(policy))]
  }

  /** The address properties warned about by the port cross-check. */
  function PortWarningProperties(hdfsSite: Namespace, isSecureAddress: string -> bool): seq<string> {
    var policy := HttpPolicy(hdfsSite);
    if policy == HTTPS_ONLY then
      if Privileged(hdfsSite, DFS_DATANODE_ADDRESS, isSecureAddress)
         || Privileged(hdfsSite, DATANODE_HTTPS_ADDRESS, isSecureAddress)
      then [DFS_DATANODE_ADDRESS, DATANODE_HTTPS_ADDRESS]
      else []
    else
      if !Privileged(hdfsSite, DFS_DATANODE_ADDRESS, isSecureAddress)
         || !Privileged(hdfsSite, DATANODE_HTTP_ADDRESS, isSecureAddress)
      then [DFS_DATANODE_ADDRESS, DATANODE_HTTP_ADDRESS]
      else []
  }

  /** The shared message of the port cross-check, by branch. */
  function PortMessage(policy: string): Message {
    if policy == HTTPS_ONLY then PrivilegedPortsUnderHttpsOnly(policy) else NonPrivilegedPorts(policy)
  }

  /** The port cross-check's warnings: one item per affected address, one message. */
  function PortWarnings(hdfsSite: Namespace, isSecureAddress: string -> bool): seq<ValidationItem> {
    WarningsFor(PortWarningProperties(hdfsSite, isSecureAddress), PortMessage(HttpPolicy(hdfsSite)))
  }

  /** The warning on dfs.data.transfer.protection, if it is set. */
  function ProtectionWarnings(hdfsSite: Namespace): seq<ValidationItem> {
    var policy := HttpPolicy(hdfsSite);
    match Lookup(hdfsSite, DATA_TRANSFER_PROTECTION)
    case None => []
    case Some(protection) =>
      if policy == HTTP_ONLY || policy == HTTP_AND_HTTPS then
        [ValidationItem(DATA_TRANSFER_PROTECTION, ProtectionNeedsHttpsOnly)]
      else if protection in VALID_TRANSFER_PROTECTION_VALUES then []
      else [ValidationItem(DATA_TRANSFER_PROTECTION, InvalidProtection(protection))]
  }

  /** All warnings of a secure cluster, in rule order. */
  function SecureModeWarnings(hdfsSite: Namespace, isSecureAddress: string -> bool): seq<ValidationItem> {
    PolicyWarnings(HttpPolicy(hdfsSite))
    + PortWarnings(hdfsSite, isSecureAddress)
    + ProtectionWarnings(hdfsSite)
  }

  /**
   * Reference definition of a validation call. The two core-site reads
   * are unguarded and happen in `and` order: the authentication key is
   * read only when wire encryption is off, the authorization key only
   * when authentication is also "kerberos".
   */
  function ValidationOutcome(hdfsSite: Namespace, coreSite: Namespace, isSecureAddress: string -> bool): Outcome {
    if WireEncryptionEnabled(hdfsSite) then Problems([])
    else if HADOOP_SECURITY_AUTHENTICATION !in coreSite then KeyError(HADOOP_SECURITY_AUTHENTICATION)
    else if coreSite[HADOOP_SECURITY_AUTHENTICATION] != "kerberos" then Problems([])
    else if HADOOP_SECURITY_AUTHORIZATION !in coreSite then KeyError(HADOOP_SECURITY_AUTHORIZATION)
    else if coreSite[HADOOP_SECURITY_AUTHORIZATION] != "true" then Problems([])
    else Problems(SecureModeWarnings(hdfsSite, isSecureAddress))
  }

  /**
   * The validator: decides from wire encryption and the core-site
   * security settings whether the DataNode checks apply, and runs them
   * when they do.
   */
  method ValidateHdfsConfigurations(hdfsSite: Namespace, coreSite: Namespace, isSecureAddress: string -> bool)
    returns (outcome: Outcome)
    ensures outcome == ValidationOutcome(hdfsSite, coreSite, isSecureAddress)
  {
    var wireEncryptionEnabled := false;
    if DFS_ENCRYPT_DATA_TRANSFER in hdfsSite {
      wireEncryptionEnabled := hdfsSite[DFS_ENCRYPT_DATA_TRANSFER] == "true";
    }

    var validationItems: seq<ValidationItem> := [];
    var securityEnabled := false;
    if !wireEncryptionEnabled {
      if HADOOP_SECURITY_AUTHENTICATION !in coreSite {
        return KeyError(HADOOP_SECURITY_AUTHENTICATION);
      }
      if coreSite[HADOOP_SECURITY_AUTHENTICATION] == "kerberos" {
        if HADOOP_SECURITY_AUTHORIZATION !in coreSite {
          return KeyError(HADOOP_SECURITY_AUTHORIZATION);
        }
        securityEnabled := coreSite[HADOOP_SECURITY_AUTHORIZATION] == "true";
      }
    }

    if securityEnabled {
      validationItems := ValidateSecureDataNode(hdfsSite, isSecureAddress);
    }
    return Problems(validationItems);
  }

  /**
   * The checks of a secure cluster: reads the settings with their
   * defaults, then appends the policy warning, the port warnings and the
   * protection warning, in that order.
   */
  method ValidateSecureDataNode(hdfsSite: Namespace, isSecureAddress: string -> bool)
    returns (validationItems: seq<ValidationItem>)
    ensures validationItems == SecureModeWarnings(hdfsSite, isSecureAddress)
  {
    var privilegedDnPort := false;
    if DFS_DATANODE_ADDRESS in hdfsSite {
      privilegedDnPort := isSecureAddress(hdfsSite[DFS_DATANODE_ADDRESS]);
    }
    var privilegedHttpPort := false;
    if DATANODE_HTTP_ADDRESS in hdfsSite {
      privilegedHttpPort := isSecureAddress(hdfsSite[DATANODE_HTTP_ADDRESS]);
    }
    var privilegedHttpsPort := false;
    if DATANODE_HTTPS_ADDRESS in hdfsSite {
      privilegedHttpsPort := isSecureAddress(hdfsSite[DATANODE_HTTPS_ADDRESS]);
    }
    var httpPolicy := HTTP_ONLY;
    if DFS_HTTP_POLICY in hdfsSite {
      httpPolicy := hdfsSite[DFS_HTTP_POLICY];
    }
    var protection: Option<string> := None;
    if DATA_TRANSFER_PROTECTION in hdfsSite {
      protection := Some(hdfsSite[DATA_TRANSFER_PROTECTION]);
    }
    assert httpPolicy == HttpPolicy(hdfsSite) && protection == Lookup(hdfsSite, DATA_TRANSFER_PROTECTION);

    validationItems := [];
    if httpPolicy !in VALID_HTTP_POLICY_VALUES {
      validationItems := validationItems + [ValidationItem(DFS_HTTP_POLICY, InvalidHttpPolicy(httpPolicy))];
    }
    assert validationItems == PolicyWarnings(HttpPolicy(hdfsSite));

    // Port cross-check: exactly one of the two branches applies.
    var addressPropertiesWithWarnings: seq<string> := [];
    // As in the source, the message is bound only where a branch has
    // warnings to give.
    var message: Option<Message> := None;
    if httpPolicy == HTTPS_ONLY {
      if privilegedDnPort || privilegedHttpsPort {
        message := Some(PrivilegedPortsUnderHttpsOnly(httpPolicy));
        addressPropertiesWithWarnings := addressPropertiesWithWarnings + [DFS_DATANODE_ADDRESS, DATANODE_HTTPS_ADDRESS];
      }
    } else {
      if !privilegedDnPort || !privilegedHttpPort {
        message := Some(NonPrivilegedPorts(httpPolicy));
        addressPropertiesWithWarnings := addressPropertiesWithWarnings + [DFS_DATANODE_ADDRESS, DATANODE_HTTP_ADDRESS];
      }
    }
    assert addressPropertiesWithWarnings == PortWarningProperties(hdfsSite, isSecureAddress);
    validationItems := AppendWarnings(validationItems, addressPropertiesWithWarnings, message);
    ghost var beforeProtection := validationItems;

    match protection {
      case None =>
      case Some(value) =>
        if httpPolicy == HTTP_ONLY || httpPolicy == HTTP_AND_HTTPS {
          validationItems := validationItems + [ValidationItem(DATA_TRANSFER_PROTECTION, ProtectionNeedsHttpsOnly)];
        } else if value !in VALID_TRANSFER_PROTECTION_VALUES {
          validationItems := validationItems + [ValidationItem(DATA_TRANSFER_PROTECTION, InvalidProtection(value))];
        }
    }
    assert validationItems == beforeProtection + ProtectionWarnings(hdfsSite);
  }

  /**
   * The loop over the warned address properties: one appended item per
   * property. The message is read only inside the loop, so it need be
   * bound only when there is a property to warn.
   */
  method AppendWarnings(items: seq<ValidationItem>, props: seq<string>, message: Option<Message>)
    returns (result: seq<ValidationItem>)
    requires props != [] ==> message.Some?
    ensures props == [] ==> result == items
    ensures props != [] ==> result == items + WarningsFor(props, message.value)
  {
    result := items;
    var i := 0;
    while i < |props|
      invariant 0 <= i <= |props|
      invariant i == 0 ==> result == items
      invariant i > 0 ==> result == items + WarningsFor(props[..i], message.value)
    {
      result := result + [ValidationItem(props[i], message.value)];
      i := i + 1;
      assert WarningsFor(props[..i], message.value) == WarningsFor(props[..i - 1], message.value) + [ValidationItem(props[i - 1], message.value)];
    }
    assert props[..i] == props;
  }
}
