# HDP 2.2 stack advisor: secure HDFS DataNode validation

A Dafny model of the HDP 2.2 stack advisor of Ambari
(`stacks/HDP/2.2/services/stack_advisor.py`). Its one piece of decision
logic is `validateHDFSConfigurations`: a rule engine that reviews the
"hdfs-site" properties of a Kerberos-secured cluster against the read-only
"core-site" and returns an ordered list of warnings, each tied to a
property key. The two registry methods that plug this validator and the
HDFS recommender into the parent stack's registries are modelled too.

Modules:

- `SiteProperties` (`site_properties.dfy`): a configuration namespace as
  `map<string, string>`, and the `try: ns[key] except KeyError:` lookups
  as `Lookup` (absent is `None`) and `GetOrDefault`.
- `HdfsValidation` (`hdfs_validation.dfy`): the property keys and valid
  values, the warning items (`ValidationItem`, with the message as a tag
  of type `Message`), and the `Outcome` of a call: the items, or the
  `KeyError` raised by an unguarded core-site lookup. `ValidationOutcome`
  is the reference definition of a call, written as the concatenation of
  the three rule groups (policy, ports, protection).
  `ValidateHdfsConfigurations` is the validator as the source runs it:
  locals with defaults, then `validationItems` built by appending, the
  port warnings by a loop over `address_properties_with_warnings`. It is
  proved to compute exactly `ValidationOutcome`. For the proof, the body of
  the `if` on security (lines 66-147) is the method
  `ValidateSecureDataNode` and the loop at lines 131-133 is the method
  `AppendWarnings`; the source has both inline.
- `HdfsValidationProperties` (`hdfs_validation_properties.dfy`): what a
  call promises, over `ValidationOutcome`. `KeyedMessages(items, key)`
  lists, in order, the messages of the items on one property key, so
  "exactly one warning on `dfs.http.policy`, and it is the invalid-policy
  message" reads `KeyedMessages(items, DFS_HTTP_POLICY) == [InvalidHttpPolicy(p)]`.
- `ServiceRegistry` (`service_registry.dfy`): the two registry methods,
  with `dict.update` as Dafny's map union.

`isSecureAddress: string -> bool` is a parameter of the validator. It
stands for the parent advisor's `isSecurePort(getPort(address))`, applied
to an address that is present. An absent address counts as not privileged,
as the source's `except KeyError` branches say.

Two facts of the code that the model keeps as written:

- The two core-site reads at lines 64-65 are unguarded, so a missing key
  raises `KeyError`. The only exceptions are where `and` short-circuits:
  when wire encryption is on, or, for the authorization key, when
  authentication is not "kerberos". The model returns `KeyError(key)` then.
- The `else` of the port cross-check at line 118 is taken for every policy
  other than HTTPS_ONLY, invalid ones included, although the comment on
  that line names only HTTP_AND_HTTPS and HTTP_ONLY. The model does the
  same.

## Model

| member | source | states |
|---|---|---|
| `HdfsValidation.ValidateHdfsConfigurations` | ambari-server/src/main/resources/stacks/HDP/2.2/services/stack_advisor.py:43-148 | the imperative validator returns exactly the reference outcome `ValidationOutcome`, KeyError cases included |
| `HdfsValidation.ValidateSecureDataNode` | ambari-server/src/main/resources/stacks/HDP/2.2/services/stack_advisor.py:66-147 | the secure-mode checks, run step by step over locals with defaults, produce exactly policy, then port, then protection warnings as the rule groups define them |
| `HdfsValidation.AppendWarnings` | ambari-server/src/main/resources/stacks/HDP/2.2/services/stack_advisor.py:131-133 | the loop appends one item per address property with a warning, in order, all with the port message, and keeps what was there; with no property to warn it adds nothing and needs no message, as the source reads the branch-bound `message` only inside the loop |
| `HdfsValidationProperties.KeyedMessagesAppend` | ambari-server/src/main/resources/stacks/HDP/2.2/services/stack_advisor.py:62-147 | the warnings on a key in appended lists are those of the first list followed by those of the second, so the appends of each rule add up |
| `HdfsValidationProperties.WireEncryptionOffByDefault` | ambari-server/src/main/resources/stacks/HDP/2.2/services/stack_advisor.py:49-53 | wire encryption is on exactly when `dfs.encrypt.data.transfer` is present and "true"; an absent key means off |
| `HdfsValidationProperties.WireEncryptionDisablesChecks` | ambari-server/src/main/resources/stacks/HDP/2.2/services/stack_advisor.py:63 | with wire encryption on, the result is the empty list, for any core-site (its keys are then never read) |
| `HdfsValidationProperties.InactiveSecurityDisablesChecks` | ambari-server/src/main/resources/stacks/HDP/2.2/services/stack_advisor.py:63-65 | with wire encryption off and the authentication key present, if authentication is not "kerberos", or authorization is present and not "true", the result is the empty list (a missing authentication key raises KeyError instead) |
| `HdfsValidationProperties.UnguardedCoreSiteReads` | ambari-server/src/main/resources/stacks/HDP/2.2/services/stack_advisor.py:63-65 | a call raises KeyError if and only if wire encryption is off and the authentication key is missing, or it is "kerberos" and the authorization key is missing; the error names the first missing key read |
| `HdfsValidationProperties.WarningsOnlyWhenChecksApply` | ambari-server/src/main/resources/stacks/HDP/2.2/services/stack_advisor.py:62-66 | a non-empty result implies wire encryption off and security active; under those conditions the result is the three rule groups in order |
| `HdfsValidationProperties.HttpPolicyWarning` | ambari-server/src/main/resources/stacks/HDP/2.2/services/stack_advisor.py:95-99 | in a secure cluster `dfs.http.policy` gets exactly one invalid-value warning if the effective policy is outside {HTTP_ONLY, HTTPS_ONLY, HTTP_AND_HTTPS} and none otherwise; an absent policy gets none |
| `HdfsValidationProperties.AddressWarnings` | ambari-server/src/main/resources/stacks/HDP/2.2/services/stack_advisor.py:101-133 | an address property is warned, once and with the branch's message, exactly when the port cross-check names it |
| `HdfsValidationProperties.HttpsOnlyPortWarnings` | ambari-server/src/main/resources/stacks/HDP/2.2/services/stack_advisor.py:103-117 | under HTTPS_ONLY the DataNode and HTTPS addresses each get the same one warning if and only if either port is privileged; the HTTP address gets none |
| `HdfsValidationProperties.OtherPolicyPortWarnings` | ambari-server/src/main/resources/stacks/HDP/2.2/services/stack_advisor.py:118-128 | under any other policy, invalid ones included, the DataNode and HTTP addresses each get the same one warning if and only if either port is not privileged; the HTTPS address gets none |
| `HdfsValidationProperties.AbsentAddressesAreWarned` | ambari-server/src/main/resources/stacks/HDP/2.2/services/stack_advisor.py:74-81 | absent DataNode and HTTP addresses count as non-privileged, so outside HTTPS_ONLY both are always warned |
| `HdfsValidationProperties.ProtectionWarning` | ambari-server/src/main/resources/stacks/HDP/2.2/services/stack_advisor.py:136-147 | an absent `dfs.data.transfer.protection` gets no warning; a set one gets exactly one under HTTP_ONLY or HTTP_AND_HTTPS; otherwise exactly one if and only if it is not authentication, integrity or privacy |
| `HdfsValidationProperties.PolicyGroupRanks` | ambari-server/src/main/resources/stacks/HDP/2.2/services/stack_advisor.py:95-99 | the policy rule gives at most one item, on `dfs.http.policy`, the first key in rule order |
| `HdfsValidationProperties.PortGroupRanks` | ambari-server/src/main/resources/stacks/HDP/2.2/services/stack_advisor.py:101-133 | the port rule gives no item, or exactly two: the DataNode address followed by one of the HTTP and HTTPS addresses, both with the same message; their ranks are 1 then 2 |
| `HdfsValidationProperties.ProtectionGroupRanks` | ambari-server/src/main/resources/stacks/HDP/2.2/services/stack_advisor.py:135-147 | the protection rule gives at most one item, on `dfs.data.transfer.protection`, the last key in rule order |
| `HdfsValidationProperties.RuleGroupsInOrder` | ambari-server/src/main/resources/stacks/HDP/2.2/services/stack_advisor.py:95-147 | appending rule groups whose positions follow one another keeps the whole list in rule order |
| `HdfsValidationProperties.WarningOrder` | ambari-server/src/main/resources/stacks/HDP/2.2/services/stack_advisor.py:95-147 | every result lists at most four items in rule order (policy, DataNode address, HTTP or HTTPS address, protection), only on those keys, and never warns both the HTTP and the HTTPS address |
| `ServiceRegistry.ServiceConfigurationRecommenderDict` | ambari-server/src/main/resources/stacks/HDP/2.2/services/stack_advisor.py:22-28 | the result is the parent registry plus "HDFS", which maps to the HDFS recommender; every other parent entry is unchanged |
| `ServiceRegistry.ServiceConfigurationValidators` | ambari-server/src/main/resources/stacks/HDP/2.2/services/stack_advisor.py:34-40 | the result is the parent registry plus "HDFS", which maps to ("hdfs-site", HDFS validator); every other parent entry is unchanged |

## Left out

- `getPort` and `isSecurePort` belong to the parent advisor, which is not part of this model. Their composition is the parameter `isSecureAddress`, a total function, so what happens on a malformed `host:port` (an exception other than `KeyError`, or some result) is left open. No port threshold such as 1024 is assumed.
- `getSiteProperties` is not part of this model: core-site is passed in as a map. What happens when the configurations hold no core-site at all is not modelled.
- `getWarnItem`: messages are the tags of `Message`. Each tag carries the policy or protection value its text interpolates. The English wording and Python's formatting of lists are not modelled.
- `toConfigurationValidationProblems` is not part of this model: the validator returns the `validationItems` list it would be handed, whose items all belong to "hdfs-site".
- The `recommendedDefaults` argument of `validateHDFSConfigurations` is never read by the source, so it is not a parameter of the model.
- `recommendHDFSConfigurations` is a single call to the parent's `putProperty`, with no logic of its own, so it is not modelled.
- `super()`: the parent registries are parameters. `update` mutates the dict the parent returned. The model returns a new map instead, so aliasing of that dict with other holders is not modelled.
- Class inheritance from `HDP21StackAdvisor`, and how the host calls the advisor, are outside this file.
