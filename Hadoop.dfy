/**
 * The slice of Hadoop's job configuration that the connector writes or reads. Each field
 * stands for one setting; the library calls that write them are not modelled, only the
 * arguments they receive.
 */
module Hadoop {
  import opened Base

  /** Input format classes a scheme may select. */
  datatype InputFormatClass = DBInputFormat | ADInputFormat | OtherInputFormat(name: string)

  /** Output format classes a scheme may select. */
  datatype OutputFormatClass = DBOutputFormat | OtherOutputFormat(name: string)

  /** Login passed with the connection settings; the password may be null. */
  datatype Credentials = Credentials(username: string, password: Option<string>)

  /** The arguments of `DBConfiguration.configureDB`. */
  datatype DbConfig = DbConfig(driverClassName: string, url: string, credentials: Option<Credentials>)

  /** The arguments of `DBInputFormat.setInput(conf, TupleRecord.class, table, conditions, orderBy, fields)`. */
  datatype InputSetup = InputSetup(
    tableName: string, conditions: Option<string>, orderBy: Option<string>, fieldNames: seq<string>)

  /** The arguments of `DBOutputFormat.setOutput(conf, formatClass, table, fields, updateFields)`. */
  datatype OutputSetup = OutputSetup(
    outputFormatClass: OutputFormatClass, tableName: string, fieldNames: seq<string>,
    updateFields: Option<seq<string>>)

  /** A job configuration. */
  class JobConf {
    /** The value of `mapred.task.partition`; set only inside a running task. */
    var taskPartition: Option<string>
    /** `FileInputFormat.setInputPaths`. */
    var inputPaths: seq<string>
    /** `DBConfiguration.configureDB`. */
    var db: Option<DbConfig>
    /** `DBInputFormat.setInput`. */
    var input: Option<InputSetup>
    /** `DBOutputFormat.setOutput`. */
    var output: Option<OutputSetup>
    /** `conf.setInputFormat`; None while the job's default is in force. */
    var inputFormat: Option<InputFormatClass>
    /** `conf.setOutputFormat`; None while the job's default is in force. */
    var outputFormat: Option<OutputFormatClass>

    constructor (taskPartition: Option<string>)
      ensures this.taskPartition == taskPartition
      ensures inputPaths == [] && db == None && input == None && output == None
      ensures inputFormat == None && outputFormat == None
    {
      this.taskPartition := taskPartition;
      inputPaths := [];
      db := None;
      input := None;
      output := None;
      inputFormat := None;
      outputFormat := None;
    }
  }
}
