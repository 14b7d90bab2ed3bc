/**
 * The two registries of the HDP 2.2 stack advisor: service name to
 * recommender, and service name to (configuration type, validator).
 * Each is the parent stack's registry with the "HDFS" entry replaced or
 * added, as Python's `dict.update` does; Dafny's map union `+` keeps the
 * right operand's value on a shared key, which is that update.
 */
module ServiceRegistry {

  const HDFS := "HDFS"
  const HDFS_SITE := "hdfs-site"

  /** A validator registry entry: the configuration type it reviews and the validator. */
  datatype ValidatorEntry<V> = ValidatorEntry(siteName: string, validator: V)

  /** The recommenders: the parent's, with "HDFS" handled by this stack's HDFS recommender. */
  method ServiceConfigurationRecommenderDict<R>(parentRecommenders: map<string, R>, recommendHdfs: R)
    returns (recommenders: map<string, R>)
    ensures recommenders.Keys == parentRecommenders.Keys + {HDFS}
    ensures recommenders[HDFS] == recommendHdfs
    ensures forall service :: service in parentRecommenders && service != HDFS ==>
      recommenders[service] == parentRecommenders[service]
  {
    var childRecommenders := map[HDFS := recommendHdfs];
    recommenders := parentRecommenders;
    recommenders := recommenders + childRecommenders;
  }

  /** The validators: the parent's, with "HDFS" reviewing "hdfs-site" by this stack's HDFS validator. */
  method ServiceConfigurationValidators<V>(parentValidators: map<string, ValidatorEntry<V>>, validateHdfs: V)
    returns (validators: map<string, ValidatorEntry<V>>)
    ensures validators.Keys == parentValidators.Keys + {HDFS}
    ensures validators[HDFS] == ValidatorEntry(HDFS_SITE, validateHdfs)
    ensures forall service :: service in parentValidators && service != HDFS ==>
      validators[service] == parentValidators[service]
  {
    var childValidators := map[HDFS := ValidatorEntry(HDFS_SITE, validateHdfs)];
    validators := parentValidators;
    validators := validators + childValidators;
  }
}
