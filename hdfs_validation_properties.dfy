/**
 * What the HDFS validator promises, stated over its reference definition
 * `ValidationOutcome` (which `ValidateHdfsConfigurations` computes):
 * when it stays silent, which warnings each rule produces under which
 * key, and in what order they come.
 */
module HdfsValidationProperties {
  import opened SiteProperties
  import opened HdfsValidation

  /** The messages of the items keyed `key`, in list order. */
  function KeyedMessages(items: seq<ValidationItem>, key: string): (ms: seq<Message>)
    ensures |ms| <= |items|
  {
    if items == [] then []
    else (if items[0].configName == key then [items[0].message] else []) + KeyedMessages(items[1..], key)
  }

  lemma {:induction false} KeyedMessagesAppend(a: seq<ValidationItem>, b: seq<ValidationItem>, key: string)
    ensures KeyedMessages(a + b, key) == KeyedMessages(a, key) + KeyedMessages(b, key)
  {
    if a == [] {
      assert a + b == b;
    } else {
      var head := if a[0].configName == key then [a[0].message] else [];
      assert (a + b)[0] == a[0];
      assert (a + b)[1..] == a[1..] + b;
      assert KeyedMessages(a + b, key) == head + KeyedMessages(a[1..] + b, key);
      KeyedMessagesAppend(a[1..], b, key);
      assert KeyedMessages(a, key) == head + KeyedMessages(a[1..], key);
    }
  }

  /** The policy rule speaks only about dfs.http.policy. */
  lemma PolicyKeyedMessages(policy: string, key: string)
    ensures KeyedMessages(PolicyWarnings(policy), key)
         == if key == DFS_HTTP_POLICY && policy !in VALID_HTTP_POLICY_VALUES then [InvalidHttpPolicy(policy)] else []
  {
  }

  /** The protection rule speaks only about dfs.data.transfer.protection. */
  lemma ProtectionKeyedMessages(hdfsSite: Namespace, key: string)
    ensures key != DATA_TRANSFER_PROTECTION ==> KeyedMessages(ProtectionWarnings(hdfsSite), key) == []
    ensures KeyedMessages(ProtectionWarnings(hdfsSite), DATA_TRANSFER_PROTECTION)
         == if |ProtectionWarnings(hdfsSite)| == 1 then [ProtectionWarnings(hdfsSite)[0].message] else []
  {
  }

  /** The port rule: its shared message once per warned property that is `key`. */
  lemma PortKeyedMessages(hdfsSite: Namespace, isSecureAddress: string -> bool, key: string)
    ensures var props := PortWarningProperties(hdfsSite, isSecureAddress);
      KeyedMessages(PortWarnings(hdfsSite, isSecureAddress), key)
        == if key in props then [PortMessage(HttpPolicy(hdfsSite))] else []
  {
  }

  /** The messages keyed `key` in a secure cluster, rule group by rule group. */
  lemma SecureModeKeyedMessages(hdfsSite: Namespace, isSecureAddress: string -> bool, key: string)
    ensures KeyedMessages(SecureModeWarnings(hdfsSite, isSecureAddress), key)
         == KeyedMessages(PolicyWarnings(HttpPolicy(hdfsSite)), key)
            + KeyedMessages(PortWarnings(hdfsSite, isSecureAddress), key)
            + KeyedMessages(ProtectionWarnings(hdfsSite), key)
  {
    var p := PolicyWarnings(HttpPolicy(hdfsSite));
    var q := PortWarnings(hdfsSite, isSecureAddress);
    var r := ProtectionWarnings(hdfsSite);
    KeyedMessagesAppend(p + q, r, key);
    KeyedMessagesAppend(p, q, key);
  }

  /** The messages keyed by one of the address properties. */
  lemma AddressKeyedMessages(hdfsSite: Namespace, isSecureAddress: string -> bool, key: string)
    requires key == DFS_DATANODE_ADDRESS || key == DATANODE_HTTP_ADDRESS || key == DATANODE_HTTPS_ADDRESS
    ensures KeyedMessages(SecureModeWarnings(hdfsSite, isSecureAddress), key)
         == KeyedMessages(PortWarnings(hdfsSite, isSecureAddress), key)
  {
    SecureModeKeyedMessages(hdfsSite, isSecureAddress, key);
    PolicyKeyedMessages(HttpPolicy(hdfsSite), key);
    ProtectionKeyedMessages(hdfsSite, key);
  }

  /** Proof helper: the five hdfs-site keys the rules report on are pairwise distinct. */
  lemma PropertyKeysDistinct()
    ensures DFS_HTTP_POLICY != DFS_DATANODE_ADDRESS && DFS_HTTP_POLICY != DATANODE_HTTP_ADDRESS
    ensures DFS_HTTP_POLICY != DATANODE_HTTPS_ADDRESS && DFS_HTTP_POLICY != DATA_TRANSFER_PROTECTION
    ensures DFS_DATANODE_ADDRESS != DATANODE_HTTP_ADDRESS && DFS_DATANODE_ADDRESS != DATANODE_HTTPS_ADDRESS
    ensures DFS_DATANODE_ADDRESS != DATA_TRANSFER_PROTECTION && DATANODE_HTTP_ADDRESS != DATANODE_HTTPS_ADDRESS
    ensures DATANODE_HTTP_ADDRESS != DATA_TRANSFER_PROTECTION && DATANODE_HTTPS_ADDRESS != DATA_TRANSFER_PROTECTION
  {
  }

  /** The checks apply: wire encryption is off and Kerberos security is active. */
  predicate ChecksApply(hdfsSite: Namespace, coreSite: Namespace) {
    !WireEncryptionEnabled(hdfsSite) && SecurityActive(coreSite)
  }

  /** An absent dfs.encrypt.data.transfer leaves wire encryption off. */
  lemma WireEncryptionOffByDefault(hdfsSite: Namespace)
    ensures DFS_ENCRYPT_DATA_TRANSFER !in hdfsSite ==> !WireEncryptionEnabled(hdfsSite)
    ensures WireEncryptionEnabled(hdfsSite) <==>
      DFS_ENCRYPT_DATA_TRANSFER in hdfsSite && hdfsSite[DFS_ENCRYPT_DATA_TRANSFER] == "true"
  {
  }

  /** Wire encryption switches every check off, whatever core-site holds. */
  lemma WireEncryptionDisablesChecks(hdfsSite: Namespace, coreSite: Namespace, isSecureAddress: string -> bool)
    requires WireEncryptionEnabled(hdfsSite)
    ensures ValidationOutcome(hdfsSite, coreSite, isSecureAddress) == Problems([])
  {
  }

  /**
   * Without Kerberos authentication and authorization, nothing is
   * reported (provided the lookups that do happen find their keys).
   */
  lemma InactiveSecurityDisablesChecks(hdfsSite: Namespace, coreSite: Namespace, isSecureAddress: string -> bool)
    requires !WireEncryptionEnabled(hdfsSite)
    requires HADOOP_SECURITY_AUTHENTICATION in coreSite
    requires coreSite[HADOOP_SECURITY_AUTHENTICATION] != "kerberos"
          || (HADOOP_SECURITY_AUTHORIZATION in coreSite && coreSite[HADOOP_SECURITY_AUTHORIZATION] != "true")
    ensures ValidationOutcome(hdfsSite, coreSite, isSecureAddress) == Problems([])
  {
  }

  /**
   * The two core-site reads are unguarded: a call fails with KeyError
   * exactly when wire encryption is off and a key that `and` goes on to
   * read is missing, and the error names that key.
   */
  lemma UnguardedCoreSiteReads(hdfsSite: Namespace, coreSite: Namespace, isSecureAddress: string -> bool)
    ensures ValidationOutcome(hdfsSite, coreSite, isSecureAddress).KeyError? <==>
      && !WireEncryptionEnabled(hdfsSite)
      && (|| HADOOP_SECURITY_AUTHENTICATION !in coreSite
          || (coreSite[HADOOP_SECURITY_AUTHENTICATION] == "kerberos" && HADOOP_SECURITY_AUTHORIZATION !in coreSite))
    ensures ValidationOutcome(hdfsSite, coreSite, isSecureAddress).KeyError? ==>
      ValidationOutcome(hdfsSite, coreSite, isSecureAddress).key
        == if HADOOP_SECURITY_AUTHENTICATION !in coreSite then HADOOP_SECURITY_AUTHENTICATION
           else HADOOP_SECURITY_AUTHORIZATION
  {
  }

  /** Warnings come only from a secure cluster, and there they are the three rule groups. */
  lemma WarningsOnlyWhenChecksApply(hdfsSite: Namespace, coreSite: Namespace, isSecureAddress: string -> bool)
    ensures var o := ValidationOutcome(hdfsSite, coreSite, isSecureAddress);
      o.Problems? && o.items != [] ==> ChecksApply(hdfsSite, coreSite)
    ensures ChecksApply(hdfsSite, coreSite) ==>
      ValidationOutcome(hdfsSite, coreSite, isSecureAddress) == Problems(SecureModeWarnings(hdfsSite, isSecureAddress))
  {
  }

  /**
   * A policy outside {HTTP_ONLY, HTTPS_ONLY, HTTP_AND_HTTPS} draws exactly
   * one warning on dfs.http.policy; an absent policy, read as HTTP_ONLY,
   * draws none.
   */
  lemma HttpPolicyWarning(hdfsSite: Namespace, coreSite: Namespace, isSecureAddress: string -> bool)
    requires ChecksApply(hdfsSite, coreSite)
    ensures ValidationOutcome(hdfsSite, coreSite, isSecureAddress).Problems?
    ensures KeyedMessages(ValidationOutcome(hdfsSite, coreSite, isSecureAddress).items, DFS_HTTP_POLICY)
         == if HttpPolicy(hdfsSite) in VALID_HTTP_POLICY_VALUES then []
            else [InvalidHttpPolicy(HttpPolicy(hdfsSite))]
    ensures DFS_HTTP_POLICY !in hdfsSite ==>
      KeyedMessages(ValidationOutcome(hdfsSite, coreSite, isSecureAddress).items, DFS_HTTP_POLICY) == []
  {
    WarningsOnlyWhenChecksApply(hdfsSite, coreSite, isSecureAddress);
    SecureModeKeyedMessages(hdfsSite, isSecureAddress, DFS_HTTP_POLICY);
    PolicyKeyedMessages(HttpPolicy(hdfsSite), DFS_HTTP_POLICY);
    PortKeyedMessages(hdfsSite, isSecureAddress, DFS_HTTP_POLICY);
    ProtectionKeyedMessages(hdfsSite, DFS_HTTP_POLICY);
  }

  /** In a secure cluster, an address property is warned exactly when the port rule names it. */
  lemma AddressWarnings(hdfsSite: Namespace, coreSite: Namespace, isSecureAddress: string -> bool, key: string)
    requires ChecksApply(hdfsSite, coreSite)
    requires key == DFS_DATANODE_ADDRESS || key == DATANODE_HTTP_ADDRESS || key == DATANODE_HTTPS_ADDRESS
    ensures ValidationOutcome(hdfsSite, coreSite, isSecureAddress).Problems?
    ensures KeyedMessages(ValidationOutcome(hdfsSite, coreSite, isSecureAddress).items, key)
         == if key in PortWarningProperties(hdfsSite, isSecureAddress) then [PortMessage(HttpPolicy(hdfsSite))] else []
  {
    WarningsOnlyWhenChecksApply(hdfsSite, coreSite, isSecureAddress);
    AddressKeyedMessages(hdfsSite, isSecureAddress, key);
    PortKeyedMessages(hdfsSite, isSecureAddress, key);
  }

  /**
   * Under HTTPS_ONLY, the DataNode and HTTPS addresses are warned, with
   * one shared message, exactly when either uses a privileged port; the
   * HTTP address is never warned.
   */
  lemma HttpsOnlyPortWarnings(hdfsSite: Namespace, coreSite: Namespace, isSecureAddress: string -> bool)
    requires ChecksApply(hdfsSite, coreSite)
    requires HttpPolicy(hdfsSite) == HTTPS_ONLY
    ensures ValidationOutcome(hdfsSite, coreSite, isSecureAddress).Problems?
    ensures var items := ValidationOutcome(hdfsSite, coreSite, isSecureAddress).items;
      var expected :=
        if Privileged(hdfsSite, DFS_DATANODE_ADDRESS, isSecureAddress)
           || Privileged(hdfsSite, DATANODE_HTTPS_ADDRESS, isSecureAddress)
        then [PrivilegedPortsUnderHttpsOnly(HTTPS_ONLY)] else [];
      && KeyedMessages(items, DFS_DATANODE_ADDRESS) == expected
      && KeyedMessages(items, DATANODE_HTTPS_ADDRESS) == expected
      && KeyedMessages(items, DATANODE_HTTP_ADDRESS) == []
  {
    var warned := Privileged(hdfsSite, DFS_DATANODE_ADDRESS, isSecureAddress)
               || Privileged(hdfsSite, DATANODE_HTTPS_ADDRESS, isSecureAddress);
    var props := PortWarningProperties(hdfsSite, isSecureAddress);
    PropertyKeysDistinct();
    assert PortMessage(HttpPolicy(hdfsSite)) == PrivilegedPortsUnderHttpsOnly(HTTPS_ONLY);
    assert props == if warned then [DFS_DATANODE_ADDRESS, DATANODE_HTTPS_ADDRESS] else [];
    AddressWarnings(hdfsSite, coreSite, isSecureAddress, DFS_DATANODE_ADDRESS);
    AddressWarnings(hdfsSite, coreSite, isSecureAddress, DATANODE_HTTPS_ADDRESS);
    AddressWarnings(hdfsSite, coreSite, isSecureAddress, DATANODE_HTTP_ADDRESS);
  }

  /**
   * Under any other policy, invalid ones included, the DataNode and HTTP
   * addresses are warned, with one shared message, exactly when either
   * does not use a privileged port; the HTTPS address is never warned.
   */
  lemma OtherPolicyPortWarnings(hdfsSite: Namespace, coreSite: Namespace, isSecureAddress: string -> bool)
    requires ChecksApply(hdfsSite, coreSite)
    requires HttpPolicy(hdfsSite) != HTTPS_ONLY
    ensures ValidationOutcome(hdfsSite, coreSite, isSecureAddress).Problems?
    ensures var items := ValidationOutcome(hdfsSite, coreSite, isSecureAddress).items;
      var expected :=
        if !Privileged(hdfsSite, DFS_DATANODE_ADDRESS, isSecureAddress)
           || !Privileged(hdfsSite, DATANODE_HTTP_ADDRESS, isSecureAddress)
        then [NonPrivilegedPorts(HttpPolicy(hdfsSite))] else [];
      && KeyedMessages(items, DFS_DATANODE_ADDRESS) == expected
      && KeyedMessages(items, DATANODE_HTTP_ADDRESS) == expected
      && KeyedMessages(items, DATANODE_HTTPS_ADDRESS) == []
  {
    var warned := !Privileged(hdfsSite, DFS_DATANODE_ADDRESS, isSecureAddress)
               || !Privileged(hdfsSite, DATANODE_HTTP_ADDRESS, isSecureAddress);
    var props := PortWarningProperties(hdfsSite, isSecureAddress);
    PropertyKeysDistinct();
    assert PortMessage(HttpPolicy(hdfsSite)) == NonPrivilegedPorts(HttpPolicy(hdfsSite));
    assert props == if warned then [DFS_DATANODE_ADDRESS, DATANODE_HTTP_ADDRESS] else [];
    AddressWarnings(hdfsSite, coreSite, isSecureAddress, DFS_DATANODE_ADDRESS);
    AddressWarnings(hdfsSite, coreSite, isSecureAddress, DATANODE_HTTPS_ADDRESS);
    AddressWarnings(hdfsSite, coreSite, isSecureAddress, DATANODE_HTTP_ADDRESS);
  }

  /**
   * An absent address counts as non-privileged: with neither the
   * DataNode nor the HTTP address set and a policy other than
   * HTTPS_ONLY, both are always warned.
   */
  lemma AbsentAddressesAreWarned(hdfsSite: Namespace, coreSite: Namespace, isSecureAddress: string -> bool)
    requires ChecksApply(hdfsSite, coreSite)
    requires HttpPolicy(hdfsSite) != HTTPS_ONLY
    requires DFS_DATANODE_ADDRESS !in hdfsSite && DATANODE_HTTP_ADDRESS !in hdfsSite
    ensures ValidationOutcome(hdfsSite, coreSite, isSecureAddress).Problems?
    ensures var items := ValidationOutcome(hdfsSite, coreSite, isSecureAddress).items;
      && KeyedMessages(items, DFS_DATANODE_ADDRESS) == [NonPrivilegedPorts(HttpPolicy(hdfsSite))]
      && KeyedMessages(items, DATANODE_HTTP_ADDRESS) == [NonPrivilegedPorts(HttpPolicy(hdfsSite))]
  {
    OtherPolicyPortWarnings(hdfsSite, coreSite, isSecureAddress);
  }

  /**
   * dfs.data.transfer.protection: no warning when absent; exactly one
   * when set under HTTP_ONLY or HTTP_AND_HTTPS; otherwise exactly one
   * when its value is not authentication, integrity or privacy.
   */
  lemma ProtectionWarning(hdfsSite: Namespace, coreSite: Namespace, isSecureAddress: string -> bool)
    requires ChecksApply(hdfsSite, coreSite)
    ensures ValidationOutcome(hdfsSite, coreSite, isSecureAddress).Problems?
    ensures var ms := KeyedMessages(ValidationOutcome(hdfsSite, coreSite, isSecureAddress).items, DATA_TRANSFER_PROTECTION);
      var policy := HttpPolicy(hdfsSite);
      && (DATA_TRANSFER_PROTECTION !in hdfsSite ==> ms == [])
      && (DATA_TRANSFER_PROTECTION in hdfsSite && (policy == HTTP_ONLY || policy == HTTP_AND_HTTPS) ==>
            ms == [ProtectionNeedsHttpsOnly])
      && (DATA_TRANSFER_PROTECTION in hdfsSite && policy != HTTP_ONLY && policy != HTTP_AND_HTTPS ==>
            ms == if hdfsSite[DATA_TRANSFER_PROTECTION] in VALID_TRANSFER_PROTECTION_VALUES then []
                  else [InvalidProtection(hdfsSite[DATA_TRANSFER_PROTECTION])])
  {
    WarningsOnlyWhenChecksApply(hdfsSite, coreSite, isSecureAddress);
    var items := ValidationOutcome(hdfsSite, coreSite, isSecureAddress).items;
    assert KeyedMessages(items, DATA_TRANSFER_PROTECTION)
        == KeyedMessages(ProtectionWarnings(hdfsSite), DATA_TRANSFER_PROTECTION) by {
      PropertyKeysDistinct();
      SecureModeKeyedMessages(hdfsSite, isSecureAddress, DATA_TRANSFER_PROTECTION);
      PolicyKeyedMessages(HttpPolicy(hdfsSite), DATA_TRANSFER_PROTECTION);
      PortKeyedMessages(hdfsSite, isSecureAddress, DATA_TRANSFER_PROTECTION);
    }
    ProtectionKeyedMessages(hdfsSite, DATA_TRANSFER_PROTECTION);
  }

  /**
   * Position of a property's warning in the output: the policy warning,
   * then the DataNode address, then the HTTP or HTTPS address, then the
   * protection setting. Keys the validator never reports rank last.
   */
  function Rank(key: string): nat {
    if key == DFS_HTTP_POLICY then 0
    else if key == DFS_DATANODE_ADDRESS then 1
    else if key == DATANODE_HTTP_ADDRESS || key == DATANODE_HTTPS_ADDRESS then 2
    else if key == DATA_TRANSFER_PROTECTION then 3
    else 4
  }

  /** Items whose ranks strictly increase, each a key the validator reports. */
  predicate InRuleOrder(items: seq<ValidationItem>) {
    && (forall i :: 0 <= i < |items| ==> Rank(items[i].configName) < 4)
    && (forall i, j :: 0 <= i < j < |items| ==> Rank(items[i].configName) < Rank(items[j].configName))
  }

  /** Items whose ranks all lie in `lo..hi`. */
  predicate RanksWithin(items: seq<ValidationItem>, lo: nat, hi: nat) {
    forall i :: 0 <= i < |items| ==> lo <= Rank(items[i].configName) <= hi
  }

  /** Three rank-ordered groups whose rank ranges follow one another stay rank-ordered together. */
  lemma RuleGroupsInOrder(p: seq<ValidationItem>, q: seq<ValidationItem>, r: seq<ValidationItem>, pHi: nat, qLo: nat, qHi: nat, rLo: nat)
    requires InRuleOrder(p) && InRuleOrder(q) && InRuleOrder(r)
    requires pHi < qLo <= qHi < rLo
    requires RanksWithin(p, 0, pHi) && RanksWithin(q, qLo, qHi) && RanksWithin(r, rLo, 4)
    ensures InRuleOrder(p + q + r)
  {
  }

  /** The policy rule gives at most one item, on the first-ranked key. */
  lemma PolicyGroupRanks(policy: string)
    ensures var p := PolicyWarnings(policy); |p| <= 1 && InRuleOrder(p) && RanksWithin(p, 0, 0)
  {
  }

  /** The port rule gives no item, or the DataNode address followed by the HTTP or HTTPS address. */
  lemma PortGroupRanks(hdfsSite: Namespace, isSecureAddress: string -> bool)
    ensures var q := PortWarnings(hdfsSite, isSecureAddress); |q| <= 2 && InRuleOrder(q) && RanksWithin(q, 1, 2)
    ensures var q := PortWarnings(hdfsSite, isSecureAddress);
      || q == []
      || (&& |q| == 2
          && q[0].configName == DFS_DATANODE_ADDRESS
          && (q[1].configName == DATANODE_HTTP_ADDRESS || q[1].configName == DATANODE_HTTPS_ADDRESS)
          && q[0].message == q[1].message)
  {
  }

  /** The protection rule gives at most one item, on the last-ranked key. */
  lemma ProtectionGroupRanks(hdfsSite: Namespace)
    ensures var r := ProtectionWarnings(hdfsSite); |r| <= 1 && InRuleOrder(r) && RanksWithin(r, 3, 4)
  {
  }

  /**
   * The output comes in rule order, at most four items, each on a
   * property the rules name, and never on both the HTTP and the HTTPS
   * address in one call.
   */
  lemma WarningOrder(hdfsSite: Namespace, coreSite: Namespace, isSecureAddress: string -> bool)
    ensures var o := ValidationOutcome(hdfsSite, coreSite, isSecureAddress);
      o.Problems? ==>
        && InRuleOrder(o.items)
        && |o.items| <= 4
        && !(KeyedMessages(o.items, DATANODE_HTTP_ADDRESS) != [] && KeyedMessages(o.items, DATANODE_HTTPS_ADDRESS) != [])
  {
    WarningsOnlyWhenChecksApply(hdfsSite, coreSite, isSecureAddress);
    var o := ValidationOutcome(hdfsSite, coreSite, isSecureAddress);
    if o.Problems? && o.items != [] {
      var p := PolicyWarnings(HttpPolicy(hdfsSite));
      var q := PortWarnings(hdfsSite, isSecureAddress);
      var r := ProtectionWarnings(hdfsSite);
      assert o.items == p + q + r;
      PolicyGroupRanks(HttpPolicy(hdfsSite));
      PortGroupRanks(hdfsSite, isSecureAddress);
      ProtectionGroupRanks(hdfsSite);
      RuleGroupsInOrder(p, q, r, 0, 1, 2, 3);
      assert !(DATANODE_HTTP_ADDRESS in PortWarningProperties(hdfsSite, isSecureAddress)
               && DATANODE_HTTPS_ADDRESS in PortWarningProperties(hdfsSite, isSecureAddress)) by {
        PropertyKeysDistinct();
      }
      AddressWarnings(hdfsSite, coreSite, isSecureAddress, DATANODE_HTTP_ADDRESS);
      AddressWarnings(hdfsSite, coreSite, isSecureAddress, DATANODE_HTTPS_ADDRESS);
    }
  }
}
